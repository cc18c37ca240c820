/** Session tokens (internal/app/session.go). Each critical section and each
    clock reading is one step; threads interleave in any order, and a cleanup
    goroutine runs beside them. */
module Sessions {
  import opened Common
  import Calls
  import opened Steps

  type Token = string

  const HOUR: int := 3_600_000_000_000
  const SESSION_MAX_LIFETIME: int := 24 * HOUR
  const SESSION_IDLE_TIMEOUT: int := 2 * HOUR

  datatype Session = Session(usbPath: string, createdAt: int, expiresAt: int, lastUsed: int)

  datatype Verdict = Valid | InvalidToken | Expired | IdleTimeout

  function NewSession(usbPath: string, now: int): Session {
    Session(usbPath, now, now + SESSION_MAX_LIFETIME, now)
  }

  /** The two timeout checks, in order. */
  function Judge(s: Session, now: int): Verdict {
    if now > s.expiresAt then Expired
    else if now - s.lastUsed > SESSION_IDLE_TIMEOUT then IdleTimeout
    else Valid
  }

  // ----- one call at a time

  type Table = map<Token, Session>

  /** What one undisturbed validation does to the map, and its verdict. */
  function Validated(sessions: Table, token: Token, now: int): (Table, Verdict) {
    if token !in sessions then (sessions, InvalidToken)
    else
      match Judge(sessions[token], now)
      case Valid => (sessions[token := sessions[token].(lastUsed := now)], Valid)
      case v => (sessions - {token}, v)
  }

  /** Which verdict belongs to which limit: 24 hours after the creation is the end, and
      more than two hours without use is too long. */
  lemma ValidatedExactly(sessions: Table, token: Token, now: int)
    ensures var (after, v) := Validated(sessions, token, now);
            (v == InvalidToken <==> token !in sessions) &&
            (token in sessions ==>
               var o := sessions[token];
               (v == Expired <==> now > o.expiresAt) &&
               (v == IdleTimeout <==> now <= o.expiresAt && now - o.lastUsed > 7_200_000_000_000) &&
               (v == Valid <==> now <= o.expiresAt && now - o.lastUsed <= 7_200_000_000_000) &&
               after == if v == Valid then sessions[token := o.(lastUsed := now)] else sessions - {token})
  {
  }

  // ----- what a token that is used regularly can rely on

  datatype Op =
    | Validate(token: Token, now: int)
    | Store(token: Token, usbPath: string, now: int)
    | Drop(token: Token)
    | DropAll(usbPath: string)
    | Sweep(now: int)

  /** The map after a call; whether a validation succeeded. */
  function Applied(sessions: Table, op: Op): (Table, bool) {
    match op
    case Validate(t, now) => (Validated(sessions, t, now).0, Validated(sessions, t, now).1 == Valid)
    case Store(t, usbPath, now) => (sessions[t := NewSession(usbPath, now)], true)
    case Drop(t) => (sessions - {t}, true)
    case DropAll(usbPath) => (map t | t in sessions && sessions[t].usbPath != usbPath :: sessions[t], true)
    case Sweep(now) => (map t | t in sessions && now <= sessions[t].expiresAt :: sessions[t], true)
  }

  /** When the token was last validated, first if it was not. */
  function LastValidation(ops: seq<Op>, token: Token, first: int): int {
    if ops == [] then first
    else
      var last := ops[|ops| - 1];
      if last.Validate? && last.token == token then last.now else LastValidation(ops[..|ops| - 1], token, first)
  }

  /** The call neither revokes the token nor stores another session under it, comes before
      its end, and validates it at most two hours after the validation before. */
  predicate Regular(op: Op, token: Token, o: Session, last: int) {
    match op
    case Validate(t, now) => t == token ==> now <= o.expiresAt && now - last <= 7_200_000_000_000
    case Store(t, _, _) => t != token
    case Drop(t) => t != token
    case DropAll(usbPath) => usbPath != o.usbPath
    case Sweep(now) => now <= o.expiresAt
  }

  /** Every call is regular after those before it. */
  predicate RegularRun(ops: seq<Op>, token: Token, o: Session) {
    ops != [] ==>
      var front := ops[..|ops| - 1];
      RegularRun(front, token, o) && Regular(ops[|ops| - 1], token, o, LastValidation(front, token, o.lastUsed))
  }

  /** Every validation of the token succeeds. */
  predicate AlwaysAccepted(sessions: Table, ops: seq<Op>, token: Token) {
    ops != [] ==>
      var front, last := ops[..|ops| - 1], ops[|ops| - 1];
      AlwaysAccepted(sessions, front, token) &&
      (last.Validate? && last.token == token ==> Validated(Calls.Run(Applied, sessions, front), token, last.now).1 == Valid)
  }

  /** As long as nobody revokes it, a token that is validated at least every two hours is
      accepted every time, up to 24 hours after its creation, whatever happens to others. */
  lemma {:induction false} AcceptedWhileUsed(sessions: Table, token: Token, ops: seq<Op>)
    requires token in sessions && RegularRun(ops, token, sessions[token])
    ensures AlwaysAccepted(sessions, ops, token)
    ensures var end := Calls.Run(Applied, sessions, ops);
            token in end &&
            end[token] == sessions[token].(lastUsed := LastValidation(ops, token, sessions[token].lastUsed))
  {
    if ops != [] {
      var front, last := ops[..|ops| - 1], ops[|ops| - 1];
      var o := sessions[token];
      hide Applied, Validated, Regular;
      AcceptedWhileUsed(sessions, token, front);
      AcceptedOnce(Calls.Run(Applied, sessions, front), token, last, o, LastValidation(front, token, o.lastUsed));
    }
  }

  lemma AcceptedOnce(sessions: Table, token: Token, op: Op, o: Session, last: int)
    requires token in sessions && sessions[token] == o.(lastUsed := last) && Regular(op, token, o, last)
    ensures var after := Applied(sessions, op).0;
            token in after &&
            after[token] == o.(lastUsed := if op.Validate? && op.token == token then op.now else last)
    ensures op.Validate? && op.token == token ==> Validated(sessions, token, op.now).1 == Valid
  {
  }

  datatype CreateError = InvalidAuth | NoRandomness | NoConfig | NoEncryption

  /** How the steps before the insertion turn out; the token is fresh random text. */
  datatype Preparation = Preparation(passwordOk: bool, token: Option<Token>, configLoads: bool, keySealed: bool) {
    function Failure(): Option<CreateError> {
      if !passwordOk then Some(InvalidAuth)
      else if token.None? then Some(NoRandomness)
      else if !configLoads then Some(NoConfig)
      else if !keySealed then Some(NoEncryption)
      else None
    }
  }

  class SessionManager {
    var sessions: Table

    constructor ()
      ensures sessions == map[]
    {
      sessions := map[];
    }

    /** Stores a session only when nothing has failed, and reports the first failure. */
    method CreateSession(p: Preparation, usbPath: string, now: int) returns (r: Result<Session, CreateError>)
      modifies this
      ensures p.Failure().Some? ==> r == Err(p.Failure().value) && sessions == old(sessions)
      ensures p.Failure().None? ==> r == Ok(NewSession(usbPath, now)) && sessions == old(sessions)[p.token.value := r.value]
      ensures r.Ok? <==> p.passwordOk && p.token.Some? && p.configLoads && p.keySealed
      ensures r.Ok? ==> r.value == Session(usbPath, now, now + 86_400_000_000_000, now)
      ensures r == Err(InvalidAuth) <==> !p.passwordOk
      ensures r == Err(NoRandomness) <==> p.passwordOk && p.token.None?
      ensures r == Err(NoConfig) <==> p.passwordOk && p.token.Some? && !p.configLoads
    {
      if !p.passwordOk {
        return Err(InvalidAuth);
      }
      if p.token.None? {
        return Err(NoRandomness);
      }
      if !p.configLoads {
        return Err(NoConfig);
      }
      if !p.keySealed {
        return Err(NoEncryption);
      }
      var session := NewSession(usbPath, now);
      sessions := sessions[p.token.value := session];
      return Ok(session);
    }

    /** A valid token is touched, an overdue one is removed. */
    method ValidateToken(token: Token, now: int) returns (v: Verdict)
      modifies this
      ensures (sessions, v) == Validated(old(sessions), token, now)
      ensures v == InvalidToken <==> token !in old(sessions)
      ensures token in old(sessions) ==>
                var o := old(sessions)[token];
                (v == Expired <==> now > o.expiresAt) &&
                (v == IdleTimeout <==> now <= o.expiresAt && now - o.lastUsed > 7_200_000_000_000) &&
                (v == Valid <==> now <= o.expiresAt && now - o.lastUsed <= 7_200_000_000_000) &&
                sessions == if v == Valid then old(sessions)[token := o.(lastUsed := now)] else old(sessions) - {token}
    {
      if token !in sessions {
        return InvalidToken;
      }
      var session := sessions[token];
      if now > session.expiresAt {
        RevokeToken(token);
        return Expired;
      }
      var idleTime := now - session.lastUsed;
      if idleTime > SESSION_IDLE_TIMEOUT {
        RevokeToken(token);
        return IdleTimeout;
      }
      sessions := sessions[token := session.(lastUsed := now)];
      return Valid;
    }

    method RevokeToken(token: Token)
      modifies this
      ensures sessions == old(sessions) - {token}
    {
      sessions := sessions - {token};
    }

    method RevokeAllSessions(usbPath: string)
      modifies this
      ensures sessions == map t | t in old(sessions) && old(sessions)[t].usbPath != usbPath :: old(sessions)[t]
    {
      var todo := sessions.Keys;
      while todo != {}
        invariant todo <= sessions.Keys <= old(sessions).Keys
        invariant forall t :: t in sessions ==> sessions[t] == old(sessions)[t]
        invariant forall t :: t in old(sessions).Keys - todo ==> (t in sessions <==> old(sessions)[t].usbPath != usbPath)
        decreases |todo|
      {
        var token :| token in todo;
        if sessions[token].usbPath == usbPath {
          sessions := sessions - {token};
        }
        todo := todo - {token};
      }
    }

    /** One round of the cleanup goroutine. */
    method Cleanup(now: int)
      modifies this
      ensures sessions == map t | t in old(sessions) && now <= old(sessions)[t].expiresAt :: old(sessions)[t]
    {
      var todo := sessions.Keys;
      while todo != {}
        invariant todo <= sessions.Keys <= old(sessions).Keys
        invariant forall t :: t in sessions ==> sessions[t] == old(sessions)[t]
        invariant forall t :: t in old(sessions).Keys - todo ==> (t in sessions <==> now <= old(sessions)[t].expiresAt)
        decreases |todo|
      {
        var token :| token in todo;
        if now > sessions[token].expiresAt {
          sessions := sessions - {token};
        }
        todo := todo - {token};
      }
    }

    /** Any session of the drive that has not reached its end; idle time is not looked at. */
    method GetSessionByUSBPath(usbPath: string, now: int) returns (r: Option<Session>)
      ensures r.Some? ==> r.value in sessions.Values && r.value.usbPath == usbPath && now < r.value.expiresAt
      ensures r.None? ==> forall t :: t in sessions ==> sessions[t].usbPath != usbPath || now >= sessions[t].expiresAt
    {
      var todo := sessions.Keys;
      while todo != {}
        invariant todo <= sessions.Keys
        invariant forall t :: t in sessions.Keys - todo ==> sessions[t].usbPath != usbPath || now >= sessions[t].expiresAt
        decreases |todo|
      {
        var token :| token in todo;
        if sessions[token].usbPath == usbPath && now < sessions[token].expiresAt {
          return Some(sessions[token]);
        }
        todo := todo - {token};
      }
      return None;
    }
  }

  // ----- interleaved calls

  /** Where a thread is between two steps. seen records how many touches of the
      session had been written when the thread read the clock. */
  datatype Pc =
    | Ready                                        // not inside a call
    | Returned(verdict: Verdict)                   // a validation just returned
    | Creating(token: Token, usbPath: string, at: int)
    | LookingUp(token: Token)
    | Found(token: Token)
    | Clocked(token: Token, at: int, seen: nat)
    | Touching(token: Token, at: int, basis: nat, seen: nat)
    | Revoking(token: Token, reason: Option<Verdict>)

  /** A successful validation, and which earlier one had set the LastUsed it was
      judged by. The first touch of a session is its creation. */
  datatype Touch = Touch(at: int, basis: nat)

  /** objects holds every session ever stored: threads keep pointers to sessions
      that are no longer in the map. history and latest only record. */
  datatype State = State(
    now: int,
    threads: seq<Pc>,
    used: set<Token>,
    live: set<Token>,
    objects: map<Token, Session>,
    history: map<Token, seq<Touch>>,
    latest: map<Token, nat>)

  datatype Action =
    | Tick(elapsed: nat)
    | BeginCreate(tid: nat, token: Token, usbPath: string)
    | Insert(tid: nat)
    | BeginValidate(tid: nat, token: Token)
    | Lookup(tid: nat)
    | ReadClock(tid: nat)
    | CheckTimeouts(tid: nat)
    | WriteLastUsed(tid: nat)
    | BeginRevoke(tid: nat, token: Token)
    | Revoke(tid: nat)
    | RevokeAll(tid: nat, usbPath: string)
    | CleanupRound

  predicate Free(pc: Pc) {
    pc.Ready? || pc.Returned?
  }

  function Initial(threads: nat, now: int): State {
    State(now, seq(threads, _ => Ready), {}, {}, map[], map[], map[])
  }

  function Goto(s: State, tid: nat, pc: Pc): State
    requires tid < |s.threads|
  {
    s.(threads := s.threads[tid := pc])
  }

  /** The state after an action, None if it is not possible. Tokens are random, so
      a new one was never used before. */
  function Next(s: State, a: Action): Option<State> {
    match a
    case Tick(elapsed) => Some(s.(now := s.now + elapsed))
    case CleanupRound =>
      Some(s.(live := set t | t in s.live && (t in s.objects ==> s.now <= s.objects[t].expiresAt)))
    case _ =>
      if a.tid >= |s.threads| then None else ThreadNext(s, a.tid, s.threads[a.tid], a)
  }

  function ThreadNext(s: State, tid: nat, pc: Pc, a: Action): Option<State>
    requires tid < |s.threads|
  {
    match a
    case BeginCreate(_, token, usbPath) =>
      if Free(pc) && token !in s.used
      then Some(Goto(s, tid, Creating(token, usbPath, s.now)).(used := s.used + {token})) else None
    case Insert(_) =>
      if pc.Creating? then Some(Inserted(s, tid, pc.token, pc.usbPath, pc.at)) else None
    case BeginValidate(_, token) =>
      if Free(pc) then Some(Goto(s, tid, LookingUp(token))) else None
    case Lookup(_) =>
      if pc.LookingUp? then
        Some(Goto(s, tid, if pc.token in s.live then Found(pc.token) else Returned(InvalidToken)))
      else None
    case ReadClock(_) =>
      if pc.Found? && pc.token in s.history
      then Some(Goto(s, tid, Clocked(pc.token, s.now, |s.history[pc.token]|))) else None
    case CheckTimeouts(_) =>
      if pc.Clocked? && pc.token in s.objects && pc.token in s.latest then
        var v := Judge(s.objects[pc.token], pc.at);
        Some(Goto(s, tid, if v.Valid? then Touching(pc.token, pc.at, s.latest[pc.token], pc.seen)
                          else Revoking(pc.token, Some(v))))
      else None
    case WriteLastUsed(_) =>
      if pc.Touching? && pc.token in s.objects && pc.token in s.history
      then Some(Touched(s, tid, pc.token, pc.at, pc.basis)) else None
    case BeginRevoke(_, token) =>
      if Free(pc) then Some(Goto(s, tid, Revoking(token, None))) else None
    case Revoke(_) =>
      if pc.Revoking? then
        Some(Goto(s, tid, if pc.reason.Some? then Returned(pc.reason.value) else Ready).(live := s.live - {pc.token}))
      else None
    case RevokeAll(_, usbPath) =>
      if Free(pc) then
        Some(Goto(s, tid, Ready).(live := set t | t in s.live && (t in s.objects ==> s.objects[t].usbPath != usbPath)))
      else None
    case _ => None
  }

  function Inserted(s: State, tid: nat, token: Token, usbPath: string, at: int): State
    requires tid < |s.threads|
  {
    Goto(s, tid, Ready).(
      live := s.live + {token},
      objects := s.objects[token := NewSession(usbPath, at)],
      history := s.history[token := [Touch(at, 0)]],
      latest := s.latest[token := 0])
  }

  function Touched(s: State, tid: nat, token: Token, at: int, basis: nat): State
    requires tid < |s.threads| && token in s.objects && token in s.history
  {
    Goto(s, tid, Returned(Valid)).(
      objects := s.objects[token := s.objects[token].(lastUsed := at)],
      history := s.history[token := s.history[token] + [Touch(at, basis)]],
      latest := s.latest[token := |s.history[token]|])
  }

  // ----- what every step keeps

  ghost predicate HistoryOk(o: Session, h: seq<Touch>, latest: nat) {
    o.expiresAt == o.createdAt + SESSION_MAX_LIFETIME &&
    latest + 1 == |h| && o.lastUsed == h[latest].at && h[0].at == o.createdAt &&
    (forall k :: 0 <= k < |h| ==> o.createdAt <= h[k].at <= o.expiresAt) &&
    (forall k :: 0 < k < |h| ==> h[k].basis < k && h[k].at - h[h[k].basis].at <= SESSION_IDLE_TIMEOUT)
  }

  /** The first seen touches were all made by time at. */
  ghost predicate SeenBy(h: seq<Touch>, seen: nat, at: int) {
    seen <= |h| && forall k :: 0 <= k < seen ==> h[k].at <= at
  }

  ghost predicate ThreadOk(s: State, pc: Pc) {
    match pc
    case Creating(token, _, at) => token in s.used && token !in s.objects && at <= s.now
    case Found(token) => token in s.objects
    case Clocked(token, at, seen) =>
      token in s.objects && s.objects[token].createdAt <= at <= s.now && token in s.history && SeenBy(s.history[token], seen, at)
    case Touching(token, at, basis, seen) =>
      token in s.objects && token in s.history && s.objects[token].createdAt <= at <= s.objects[token].expiresAt &&
      at <= s.now && SeenBy(s.history[token], seen, at) &&
      basis < |s.history[token]| && at - s.history[token][basis].at <= SESSION_IDLE_TIMEOUT
    case _ => true
  }

  ghost predicate TablesOk(s: State) {
    s.live <= s.objects.Keys <= s.used && s.history.Keys == s.objects.Keys && s.latest.Keys == s.objects.Keys &&
    forall t :: t in s.objects ==>
      s.objects[t].createdAt <= s.now && HistoryOk(s.objects[t], s.history[t], s.latest[t]) &&
      SeenBy(s.history[t], |s.history[t]|, s.now)
  }

  ghost predicate CreatorsDistinct(s: State) {
    forall i, j :: 0 <= i < j < |s.threads| && s.threads[i].Creating? && s.threads[j].Creating? ==>
      s.threads[i].token != s.threads[j].token
  }

  ghost predicate Inv(s: State) {
    TablesOk(s) && CreatorsDistinct(s) && forall i :: 0 <= i < |s.threads| ==> ThreadOk(s, s.threads[i])
  }

  lemma CreateStep(s: State, tid: nat, token: Token, usbPath: string)
    requires Inv(s) && tid < |s.threads| && token !in s.used
    ensures Inv(Goto(s, tid, Creating(token, usbPath, s.now)).(used := s.used + {token}))
  {
  }

  lemma HistoryStarts(usbPath: string, at: int)
    ensures HistoryOk(NewSession(usbPath, at), [Touch(at, 0)], 0)
  {
  }

  lemma HistoryGrows(o: Session, h: seq<Touch>, latest: nat, t: Touch)
    requires HistoryOk(o, h, latest) && o.createdAt <= t.at <= o.expiresAt
    requires t.basis < |h| && t.at - h[t.basis].at <= SESSION_IDLE_TIMEOUT
    ensures HistoryOk(o.(lastUsed := t.at), h + [t], |h|)
  {
  }

  lemma InsertStep(s: State, tid: nat)
    requires Inv(s) && tid < |s.threads| && s.threads[tid].Creating?
    ensures var pc := s.threads[tid]; Inv(Inserted(s, tid, pc.token, pc.usbPath, pc.at))
  {
    hide HistoryOk;
    var pc := s.threads[tid];
    var s' := Inserted(s, tid, pc.token, pc.usbPath, pc.at);
    assert ThreadOk(s, pc);
    HistoryStarts(pc.usbPath, pc.at);
    assert TablesOk(s');
    forall i | 0 <= i < |s.threads| ensures ThreadOk(s', s'.threads[i]) {
      InsertThread(s, tid, i);
    }
  }

  lemma InsertThread(s: State, tid: nat, i: nat)
    requires Inv(s) && tid < |s.threads| && s.threads[tid].Creating? && i < |s.threads|
    ensures var pc := s.threads[tid];
            var s' := Inserted(s, tid, pc.token, pc.usbPath, pc.at);
            ThreadOk(s', s'.threads[i])
  {
    hide HistoryOk;
    assert ThreadOk(s, s.threads[i]) && ThreadOk(s, s.threads[tid]);
  }

  lemma TouchStep(s: State, tid: nat)
    requires Inv(s) && tid < |s.threads| && s.threads[tid].Touching?
    ensures var pc := s.threads[tid];
            pc.token in s.objects && pc.token in s.history && Inv(Touched(s, tid, pc.token, pc.at, pc.basis))
  {
    hide HistoryOk;
    var pc := s.threads[tid];
    assert ThreadOk(s, pc);
    var t := pc.token;
    HistoryGrows(s.objects[t], s.history[t], s.latest[t], Touch(pc.at, pc.basis));
    var s' := Touched(s, tid, t, pc.at, pc.basis);
    assert TablesOk(s');
    forall i | 0 <= i < |s.threads| ensures ThreadOk(s', s'.threads[i]) {
      TouchThread(s, tid, i);
    }
  }

  lemma TouchThread(s: State, tid: nat, i: nat)
    requires Inv(s) && tid < |s.threads| && s.threads[tid].Touching? && i < |s.threads|
    requires s.threads[tid].token in s.objects && s.threads[tid].token in s.history
    ensures var pc := s.threads[tid];
            var s' := Touched(s, tid, pc.token, pc.at, pc.basis);
            ThreadOk(s', s'.threads[i])
  {
    hide HistoryOk;
    assert ThreadOk(s, s.threads[i]);
  }

  /** A thread that only moves on, and sessions that only leave the map. */
  lemma QuietStep(s: State, tid: nat, pc: Pc, live: set<Token>)
    requires Inv(s) && tid < |s.threads| && !pc.Creating? && ThreadOk(s, pc) && live <= s.live
    ensures Inv(Goto(s, tid, pc).(live := live))
  {
    var s' := Goto(s, tid, pc).(live := live);
    forall i | 0 <= i < |s.threads| ensures ThreadOk(s', s'.threads[i]) {
      assert ThreadOk(s, s.threads[i]);
    }
  }

  lemma NextKeepsInv(s: State, a: Action)
    requires Inv(s) && Next(s, a).Some?
    ensures Inv(Next(s, a).value)
  {
    if a.Tick? || a.CleanupRound? {
      var s' := Next(s, a).value;
      forall i | 0 <= i < |s.threads| ensures ThreadOk(s', s'.threads[i]) {
        assert ThreadOk(s, s.threads[i]);
      }
    } else {
      ThreadKeepsInv(s, a);
    }
  }

  lemma ThreadKeepsInv(s: State, a: Action)
    requires Inv(s) && Next(s, a).Some? && !a.Tick? && !a.CleanupRound?
    ensures Inv(Next(s, a).value)
  {
    hide HistoryOk, Inv;
    if a.BeginCreate? {
      CreateStep(s, a.tid, a.token, a.usbPath);
    } else if a.Insert? {
      InsertStep(s, a.tid);
    } else if a.WriteLastUsed? {
      TouchStep(s, a.tid);
    } else if a.CheckTimeouts? {
      CheckStep(s, a.tid);
    } else {
      QuietAction(s, a);
    }
  }

  lemma CheckStep(s: State, tid: nat)
    requires Inv(s) && Next(s, CheckTimeouts(tid)).Some?
    ensures Inv(Next(s, CheckTimeouts(tid)).value)
  {
    var pc, s' := s.threads[tid], Next(s, CheckTimeouts(tid)).value;
    assert ThreadOk(s, pc);
    assert HistoryOk(s.objects[pc.token], s.history[pc.token], s.latest[pc.token]);
    QuietStep(s, tid, s'.threads[tid], s.live);
    assert s' == Goto(s, tid, s'.threads[tid]).(live := s.live);
  }

  lemma QuietAction(s: State, a: Action)
    requires Inv(s) && Next(s, a).Some?
    requires a.BeginValidate? || a.Lookup? || a.ReadClock? || a.BeginRevoke? || a.Revoke? || a.RevokeAll?
    ensures Inv(Next(s, a).value)
  {
    hide HistoryOk;
    var pc, s' := s.threads[a.tid], Next(s, a).value;
    assert ThreadOk(s, pc);
    QuietStep(s, a.tid, s'.threads[a.tid], s'.live);
    assert s' == Goto(s, a.tid, s'.threads[a.tid]).(live := s'.live);
  }

  // ----- runs

  lemma {:induction false} RunKeepsInv(s: State, actions: seq<Action>)
    requires Inv(s) && Run(Next, s, actions).Some?
    ensures Inv(Run(Next, s, actions).value)
  {
    if actions != [] {
      RunKeepsInv(s, actions[..|actions| - 1]);
      NextKeepsInv(Run(Next, s, actions[..|actions| - 1]).value, actions[|actions| - 1]);
    }
  }

  /** Some touch lies in the two hours up to x. */
  ghost predicate ActiveAround(h: seq<Touch>, x: int) {
    exists j :: 0 <= j < |h| && x - SESSION_IDLE_TIMEOUT <= h[j].at <= x
  }

  lemma {:induction false} NoGapBefore(o: Session, h: seq<Touch>, latest: nat, k: nat, x: int)
    requires HistoryOk(o, h, latest) && k < |h| && o.createdAt <= x <= h[k].at
    ensures ActiveAround(h, x)
    decreases k
  {
    if h[k].at == x {
    } else if h[h[k].basis].at <= x {
      assert x - SESSION_IDLE_TIMEOUT <= h[h[k].basis].at;
    } else {
      NoGapBefore(o, h, latest, h[k].basis, x);
    }
  }

  /** In every interleaving: a validation that succeeded at time t did so within 24
      hours of the creation, and at every moment x in between some validation had
      succeeded in the two hours up to x. */
  lemma ValidatedTokenWasNeverIdle(threads: nat, start: int, actions: seq<Action>, token: Token, k: nat, x: int)
    requires Run(Next, Initial(threads, start), actions).Some?
    requires var s := Run(Next, Initial(threads, start), actions).value;
             token in s.objects && token in s.history && k < |s.history[token]|
    ensures var s := Run(Next, Initial(threads, start), actions).value;
            var o, t := s.objects[token], s.history[token][k].at;
            o.createdAt <= t <= o.createdAt + SESSION_MAX_LIFETIME &&
            (o.createdAt <= x <= t ==> ActiveAround(s.history[token], x))
  {
    hide ActiveAround;
    RunKeepsInv(Initial(threads, start), actions);
    var s := Run(Next, Initial(threads, start), actions).value;
    assert HistoryOk(s.objects[token], s.history[token], s.latest[token]);
    if s.objects[token].createdAt <= x <= s.history[token][k].at {
      NoGapBefore(s.objects[token], s.history[token], s.latest[token], k, x);
    }
  }

  /** A token that was used and is neither in the map nor about to be put there. */
  ghost predicate Gone(s: State, token: Token) {
    token in s.used && token !in s.live &&
    forall i :: 0 <= i < |s.threads| && s.threads[i].Creating? ==> s.threads[i].token != token
  }

  lemma NextKeepsGone(s: State, a: Action, token: Token)
    requires Gone(s, token) && Next(s, a).Some?
    ensures Gone(Next(s, a).value, token)
  {
  }

  /** A token that has left the map never comes back, in spite of concurrent touches. */
  lemma {:induction false} GoneForever(s: State, actions: seq<Action>, token: Token)
    requires Gone(s, token) && Run(Next, s, actions).Some?
    ensures Gone(Run(Next, s, actions).value, token)
  {
    if actions != [] {
      GoneForever(s, actions[..|actions| - 1], token);
      NextKeepsGone(Run(Next, s, actions[..|actions| - 1]).value, actions[|actions| - 1], token);
    }
  }

  /** Removing a token from the map, in whichever way, makes it Gone. */
  lemma RemovalMakesGone(s: State, a: Action, token: Token)
    requires Inv(s) && token in s.live && Next(s, a).Some? && token !in Next(s, a).value.live
    ensures Gone(Next(s, a).value, token)
  {
    hide HistoryOk, SeenBy;
    var s' := Next(s, a).value;
    forall i | 0 <= i < |s'.threads| && s'.threads[i].Creating? ensures s'.threads[i].token != token {
      assert s'.threads[i] == s.threads[i];
      assert ThreadOk(s, s.threads[i]);
    }
  }

  /** Every validation whose lookup comes after the removal is rejected. */
  lemma RemovedTokenRejected(s: State, removal: Action, between: seq<Action>, tid: nat, token: Token)
    requires Inv(s) && token in s.live && Next(s, removal).Some? && token !in Next(s, removal).value.live
    requires Run(Next, Next(s, removal).value, between).Some?
    requires var later := Run(Next, Next(s, removal).value, between).value;
             tid < |later.threads| && later.threads[tid] == LookingUp(token)
    ensures var later := Run(Next, Next(s, removal).value, between).value;
            Next(later, Lookup(tid)).Some? &&
            Next(later, Lookup(tid)).value.threads[tid] == Returned(InvalidToken)
  {
    RemovalMakesGone(s, removal, token);
    GoneForever(Next(s, removal).value, between, token);
  }

  /** The map that the sessions in it are reached through. */
  function TableOf(s: State): Table {
    map t | t in s.live && t in s.objects :: s.objects[t]
  }

  /** The other steps do to the map what the sequential methods do. */
  lemma StepsAsMethods(s: State, a: Action)
    requires Next(s, a).Some?
    ensures var before, after := TableOf(s), TableOf(Next(s, a).value);
            match a
            case CleanupRound => after == Applied(before, Sweep(s.now)).0
            case RevokeAll(_, usbPath) => after == Applied(before, DropAll(usbPath)).0
            case Revoke(tid) => tid < |s.threads| && s.threads[tid].Revoking? && after == Applied(before, Drop(s.threads[tid].token)).0
            case Insert(tid) =>
              tid < |s.threads| && s.threads[tid].Creating? &&
              var pc := s.threads[tid]; after == Applied(before, Store(pc.token, pc.usbPath, pc.at)).0
            case WriteLastUsed(tid) =>
              tid < |s.threads| && s.threads[tid].Touching? &&
              var pc := s.threads[tid];
              after == if pc.token in before then before[pc.token := before[pc.token].(lastUsed := pc.at)] else before
            case _ => after == before
  {
    hide Judge;
  }

  /** The steps of one validation from its lookup on, when nothing comes in between. */
  function ValidationSteps(s: State, tid: nat, token: Token): seq<Action> {
    if token !in s.live || token !in s.objects then [Lookup(tid)]
    else [Lookup(tid), ReadClock(tid), CheckTimeouts(tid),
          if Judge(s.objects[token], s.now).Valid? then WriteLastUsed(tid) else Revoke(tid)]
  }

  /** An undisturbed validation does exactly what the sequential method does. */
  lemma UndisturbedValidation(s: State, tid: nat, token: Token)
    requires Inv(s) && tid < |s.threads| && s.threads[tid] == LookingUp(token)
    ensures var r := Run(Next, s, ValidationSteps(s, tid, token));
            r.Some? && Inv(r.value) &&
            TableOf(r.value) == Validated(TableOf(s), token, s.now).0 &&
            r.value.threads[tid] == Returned(Validated(TableOf(s), token, s.now).1)
  {
    hide Run, Inv, Next, TablesOk;
    var steps := ValidationSteps(s, tid, token);
    TablesOfInv(s);
    RunEmpty(Next, s);
    LookupEffect(s, tid, token);
    var t := Take(Next, s, [], s, Lookup(tid));
    if token in s.live {
      ChecksEffect(s, tid, token);
      var one, two, three := [Lookup(tid)], [Lookup(tid), ReadClock(tid)], [Lookup(tid), ReadClock(tid), CheckTimeouts(tid)];
      assert [] + [Lookup(tid)] == one && one + [ReadClock(tid)] == two && two + [CheckTimeouts(tid)] == three;
      t := Take(Next, s, one, t, ReadClock(tid));
      t := Take(Next, s, two, t, CheckTimeouts(tid));
      var judged := t;
      t := Take(Next, s, three, t, steps[3]);
      assert steps == three + [steps[3]];
      RunKeepsInv(s, steps);
      LastEffect(s, tid, token, judged, t);
    } else {
      assert steps == [] + [Lookup(tid)];
      RunKeepsInv(s, steps);
    }
  }

  lemma LookupEffect(s: State, tid: nat, token: Token)
    requires tid < |s.threads| && s.threads[tid] == LookingUp(token)
    ensures Next(s, Lookup(tid)) == Some(Goto(s, tid, if token in s.live then Found(token) else Returned(InvalidToken)))
  {
  }

  /** Where the checks lead. */
  function Judged(s: State, token: Token): Pc
    requires token in s.objects && token in s.latest && token in s.history
  {
    var v := Judge(s.objects[token], s.now);
    if v.Valid? then Touching(token, s.now, s.latest[token], |s.history[token]|) else Revoking(token, Some(v))
  }

  lemma ChecksEffect(s: State, tid: nat, token: Token)
    requires tid < |s.threads| && token in s.objects && token in s.latest && token in s.history
    ensures var found, clocked, judged := Goto(s, tid, Found(token)), Goto(s, tid, Clocked(token, s.now, |s.history[token]|)), Goto(s, tid, Judged(s, token));
            Next(found, ReadClock(tid)) == Some(clocked) && Next(clocked, CheckTimeouts(tid)) == Some(judged) &&
            Next(judged, if Judged(s, token).Touching? then WriteLastUsed(tid) else Revoke(tid)) ==
              Some(if Judged(s, token).Touching? then Touched(judged, tid, token, s.now, s.latest[token])
                   else Goto(judged, tid, Returned(Judge(s.objects[token], s.now))).(live := s.live - {token}))
  {
    var found, clocked, judged := Goto(s, tid, Found(token)), Goto(s, tid, Clocked(token, s.now, |s.history[token]|)), Goto(s, tid, Judged(s, token));
    assert Next(found, ReadClock(tid)).value.threads == clocked.threads;
    assert Next(clocked, CheckTimeouts(tid)).value.threads == judged.threads;
  }

  lemma LastEffect(s: State, tid: nat, token: Token, judged: State, t: State)
    requires Inv(s) && tid < |s.threads| && token in s.live && token in s.objects && token in s.latest && token in s.history
    requires judged == Goto(s, tid, Judged(s, token)) && Inv(t)
    requires t == if Judged(s, token).Touching? then Touched(judged, tid, token, s.now, s.latest[token])
                  else Goto(judged, tid, Returned(Judge(s.objects[token], s.now))).(live := s.live - {token})
    ensures TableOf(t) == Validated(TableOf(s), token, s.now).0
    ensures t.threads[tid] == Returned(Validated(TableOf(s), token, s.now).1)
  {
    hide HistoryOk;
  }

  lemma TablesOfInv(s: State)
    requires Inv(s)
    ensures TablesOk(s)
  {
  }

  // ----- what interleaving can do

  /** The validation of a token that has passed its checks, or failed them with v. */
  predicate Committed(pc: Pc, v: Verdict) {
    (pc.Touching? && v == Valid) || (pc.Revoking? && pc.reason == Some(v))
  }

  /** The step by which such a validation ends. */
  function Finish(pc: Pc, tid: nat): Action {
    if pc.Touching? then WriteLastUsed(tid) else Revoke(tid)
  }

  /** The action is possible, and with it the call of thread tid returns v. */
  predicate Returns(s: State, a: Action, tid: nat, v: Verdict) {
    match Next(s, a)
    case None => false
    case Some(after) => tid < |after.threads| && after.threads[tid] == Returned(v)
  }

  lemma OthersLeaveCommitted(s: State, a: Action, tid: nat, v: Verdict)
    requires tid < |s.threads| && Committed(s.threads[tid], v) && Next(s, a).Some? && a != Finish(s.threads[tid], tid)
    ensures |Next(s, a).value.threads| == |s.threads| && Next(s, a).value.threads[tid] == s.threads[tid]
  {
  }

  /** Whatever steps come in between, removals of the token included, a validation
      past its checks waits only for its own last step, and ends with its verdict. */
  lemma {:induction false} CommittedEnds(s: State, between: seq<Action>, tid: nat, v: Verdict)
    requires Inv(s) && tid < |s.threads| && Committed(s.threads[tid], v)
    requires Run(Next, s, between).Some? && Finish(s.threads[tid], tid) !in between
    ensures var later := Run(Next, s, between).value;
            Inv(later) && |later.threads| == |s.threads| && later.threads[tid] == s.threads[tid] &&
            Returns(later, Finish(s.threads[tid], tid), tid, v)
  {
    hide Inv, Next, Run, Committed, Finish, Returns;
    RunKeepsInv(s, between);
    if between == [] {
      RunEmpty(Next, s);
    } else {
      var front, last := between[..|between| - 1], between[|between| - 1];
      RunLast(Next, s, between);
      assert last in between && forall a :: a in front ==> a in between;
      CommittedEnds(s, front, tid, v);
      OthersLeaveCommitted(Run(Next, s, front).value, last, tid, v);
    }
    FinishReturns(Run(Next, s, between).value, tid, v);
  }

  lemma FinishReturns(s: State, tid: nat, v: Verdict)
    requires Inv(s) && tid < |s.threads| && Committed(s.threads[tid], v)
    ensures Returns(s, Finish(s.threads[tid], tid), tid, v)
  {
    assert ThreadOk(s, s.threads[tid]);
  }

  /** None of the actions is taken by the thread. */
  predicate ByOthers(actions: seq<Action>, tid: nat) {
    forall i :: 0 <= i < |actions| ==> actions[i].Tick? || actions[i].CleanupRound? || actions[i].tid != tid
  }

  lemma OthersLeave(s: State, a: Action, tid: nat)
    requires tid < |s.threads| && Next(s, a).Some? && ByOthers([a], tid)
    ensures |Next(s, a).value.threads| == |s.threads| && Next(s, a).value.threads[tid] == s.threads[tid]
  {
    assert [a][0] == a;
  }

  lemma {:induction false} OthersRun(s: State, actions: seq<Action>, tid: nat)
    requires tid < |s.threads| && Run(Next, s, actions).Some? && ByOthers(actions, tid)
    ensures var later := Run(Next, s, actions).value;
            |later.threads| == |s.threads| && later.threads[tid] == s.threads[tid]
  {
    hide Next;
    if actions != [] {
      var front, last := actions[..|actions| - 1], actions[|actions| - 1];
      OthersRun(s, front, tid);
      OthersLeave(Run(Next, s, front).value, last, tid);
    }
  }

  /** The checks, on the fields: the thread goes on to touch the session exactly when it is
      before its end and was used in the last two hours. */
  lemma ChecksExactly(s: State, tid: nat)
    requires Inv(s) && tid < |s.threads| && s.threads[tid].Clocked?
    ensures var pc, r := s.threads[tid], Next(s, CheckTimeouts(tid));
            r.Some? && tid < |r.value.threads| && pc.token in s.objects &&
            var o, after := s.objects[pc.token], r.value.threads[tid];
            (after.Touching? && after.token == pc.token && after.at == pc.at <==>
               pc.at <= o.expiresAt && pc.at - o.lastUsed <= 7_200_000_000_000) &&
            (after == Revoking(pc.token, Some(Expired)) <==> pc.at > o.expiresAt) &&
            (after == Revoking(pc.token, Some(IdleTimeout)) <==> pc.at <= o.expiresAt && pc.at - o.lastUsed > 7_200_000_000_000)
  {
    assert ThreadOk(s, s.threads[tid]);
    hide HistoryOk, SeenBy;
  }

  /** From its lookup on, a validation never asks again whether the token is in the map:
      whatever the other threads do in between, removing it included, each of its steps
      stays possible, and it ends with the verdict on the session and the clock as they
      were at its checks. */
  lemma LookupDecides(s: State, one: seq<Action>, two: seq<Action>, three: seq<Action>, tid: nat, token: Token)
    requires Inv(s) && tid < |s.threads| && s.threads[tid] == Found(token)
    requires ByOthers(one, tid) && ByOthers(two, tid) && ByOthers(three, tid)
    requires Run(Next, s, one).Some?
    ensures var s1 := Run(Next, s, one).value;
            Next(s1, ReadClock(tid)).Some? &&
            (Run(Next, Next(s1, ReadClock(tid)).value, two).Some? ==>
               var s2 := Run(Next, Next(s1, ReadClock(tid)).value, two).value;
               Next(s2, CheckTimeouts(tid)).Some? && token in s2.objects &&
               (Run(Next, Next(s2, CheckTimeouts(tid)).value, three).Some? ==>
                  var s3 := Run(Next, Next(s2, CheckTimeouts(tid)).value, three).value;
                  tid < |s3.threads| && Returns(s3, Finish(s3.threads[tid], tid), tid, Judge(s2.objects[token], s1.now))))
  {
    hide Inv, Next, Run, Returns, ByOthers, Judge, Committed, Finish;
    OthersRun(s, one, tid);
    RunKeepsInv(s, one);
    var s1 := Run(Next, s, one).value;
    ClockStep(s1, tid, token);
    var clocked := Next(s1, ReadClock(tid)).value;
    if Run(Next, clocked, two).Some? {
      OthersRun(clocked, two, tid);
      RunKeepsInv(clocked, two);
      var s2 := Run(Next, clocked, two).value;
      JudgeStep(s2, tid, token, s1.now);
      var judged := Next(s2, CheckTimeouts(tid)).value;
      if Run(Next, judged, three).Some? {
        OthersRun(judged, three, tid);
        RunKeepsInv(judged, three);
        FinishReturns(Run(Next, judged, three).value, tid, Judge(s2.objects[token], s1.now));
      }
    }
  }

  lemma ClockStep(s: State, tid: nat, token: Token)
    requires Inv(s) && tid < |s.threads| && s.threads[tid] == Found(token)
    ensures Next(s, ReadClock(tid)).Some?
    ensures var s' := Next(s, ReadClock(tid)).value;
            Inv(s') && tid < |s'.threads| && s'.threads[tid].Clocked? && s'.threads[tid].token == token && s'.threads[tid].at == s.now
  {
    assert ThreadOk(s, s.threads[tid]);
    hide HistoryOk, SeenBy;
    NextKeepsInv(s, ReadClock(tid));
  }

  lemma JudgeStep(s: State, tid: nat, token: Token, at: int)
    requires Inv(s) && tid < |s.threads|
    requires s.threads[tid].Clocked? && s.threads[tid].token == token && s.threads[tid].at == at
    ensures Next(s, CheckTimeouts(tid)).Some? && token in s.objects
    ensures var s' := Next(s, CheckTimeouts(tid)).value;
            Inv(s') && tid < |s'.threads| && Committed(s'.threads[tid], Judge(s.objects[token], at))
  {
    assert ThreadOk(s, s.threads[tid]);
    hide HistoryOk, SeenBy;
    NextKeepsInv(s, CheckTimeouts(tid));
  }

  /** A thread between its clock reading and the end of its validation of token. */
  predicate InWindow(pc: Pc, token: Token) {
    (pc.Clocked? || pc.Touching?) && pc.token == token
  }

  /** LastUsed of a stored session goes back in a step exactly when a validation
      writes over a touch that was written since it read the clock, by a validation
      with a later reading. */
  lemma LastUsedFallsIff(s: State, a: Action, token: Token)
    requires Inv(s) && Next(s, a).Some? && token in s.objects
    ensures token in Next(s, a).value.objects && token in s.history && s.history[token] != []
    ensures Next(s, a).value.objects[token].lastUsed < s.objects[token].lastUsed <==>
            a.WriteLastUsed? && a.tid < |s.threads| && InWindow(s.threads[a.tid], token) &&
            exists k :: s.threads[a.tid].seen <= k == |s.history[token]| - 1 && s.history[token][k].at > s.threads[a.tid].at
  {
    hide Next, InWindow;
    StoredHistory(s, token);
    if a.WriteLastUsed? {
      WriteFallsIff(s, a.tid, token);
    } else {
      OnlyWritesTouch(s, a, token);
    }
  }

  lemma StoredHistory(s: State, token: Token)
    requires Inv(s) && token in s.objects
    ensures token in s.history && s.history[token] != [] &&
            s.objects[token].lastUsed == s.history[token][|s.history[token]| - 1].at
  {
    assert HistoryOk(s.objects[token], s.history[token], s.latest[token]);
  }

  lemma OnlyWritesTouch(s: State, a: Action, token: Token)
    requires Inv(s) && Next(s, a).Some? && token in s.objects && !a.WriteLastUsed?
    ensures token in Next(s, a).value.objects && Next(s, a).value.objects[token] == s.objects[token]
  {
    hide HistoryOk, SeenBy;
    if a.Insert? {
      assert ThreadOk(s, s.threads[a.tid]);
    }
  }

  lemma WriteFallsIff(s: State, tid: nat, token: Token)
    requires Inv(s) && Next(s, WriteLastUsed(tid)).Some? && token in s.objects && token in s.history && s.history[token] != []
    requires s.objects[token].lastUsed == s.history[token][|s.history[token]| - 1].at
    ensures var s' := Next(s, WriteLastUsed(tid)).value;
            token in s'.objects && tid < |s.threads| &&
            (s'.objects[token].lastUsed < s.objects[token].lastUsed <==>
               InWindow(s.threads[tid], token) &&
               exists k :: s.threads[tid].seen <= k == |s.history[token]| - 1 && s.history[token][k].at > s.threads[tid].at)
  {
    hide Inv;
    WriterSaw(s, tid);
    var pc, k := s.threads[tid], |s.history[token]| - 1;
    assert pc.token == token && k < pc.seen ==> s.history[token][k].at <= pc.at;
  }

  lemma WriterSaw(s: State, tid: nat)
    requires Inv(s) && Next(s, WriteLastUsed(tid)).Some?
    ensures tid < |s.threads| && s.threads[tid].Touching?
    ensures var pc := s.threads[tid]; pc.token in s.history && SeenBy(s.history[pc.token], pc.seen, pc.at)
  {
    hide HistoryOk, SeenBy;
    assert ThreadOk(s, s.threads[tid]);
  }

  /** Validations of token do not overlap: at most one thread is in its window, and
      nothing was written since it read the clock. */
  ghost predicate NoOverlap(s: State, token: Token) {
    (forall i, j :: 0 <= i < j < |s.threads| && InWindow(s.threads[i], token) ==> !InWindow(s.threads[j], token)) &&
    forall i :: 0 <= i < |s.threads| && InWindow(s.threads[i], token) ==>
      token in s.history && s.threads[i].seen == |s.history[token]|
  }

  /** A step after which windows do not overlap keeps LastUsed monotone. */
  lemma NoOverlapStep(s: State, a: Action, token: Token)
    requires Inv(s) && Next(s, a).Some? && token in s.objects && NoOverlap(s, token)
    requires var s' := Next(s, a).value;
             forall i, j :: 0 <= i < j < |s'.threads| && InWindow(s'.threads[i], token) ==> !InWindow(s'.threads[j], token)
    ensures var s' := Next(s, a).value;
            NoOverlap(s', token) && token in s'.objects && s.objects[token].lastUsed <= s'.objects[token].lastUsed
  {
    LastUsedFallsIff(s, a, token);
    var s' := Next(s, a).value;
    forall i | 0 <= i < |s'.threads| && InWindow(s'.threads[i], token)
      ensures token in s'.history && s'.threads[i].seen == |s'.history[token]|
    {
      WindowStep(s, a, token, i);
    }
  }

  lemma WindowStep(s: State, a: Action, token: Token, i: nat)
    requires Inv(s) && Next(s, a).Some? && token in s.objects && NoOverlap(s, token)
    requires i < |Next(s, a).value.threads| && InWindow(Next(s, a).value.threads[i], token)
    ensures var s' := Next(s, a).value; token in s'.history && s'.threads[i].seen == |s'.history[token]|
  {
    hide HistoryOk;
    if a.Insert? {
      assert ThreadOk(s, s.threads[a.tid]);
    }
  }

  /** The windows of token overlap in no state that the run passes. */
  ghost predicate NeverOverlap(s: State, actions: seq<Action>, token: Token) {
    forall n :: 0 <= n <= |actions| && Run(Next, s, actions[..n]).Some? ==>
      var t := Run(Next, s, actions[..n]).value;
      forall i, j :: 0 <= i < j < |t.threads| && InWindow(t.threads[i], token) ==> !InWindow(t.threads[j], token)
  }

  /** As long as validations of a token do not overlap, its LastUsed never goes back. */
  lemma {:induction false} LastUsedRises(s: State, actions: seq<Action>, token: Token)
    requires Inv(s) && token in s.objects && NoOverlap(s, token)
    requires Run(Next, s, actions).Some? && NeverOverlap(s, actions, token)
    ensures var end := Run(Next, s, actions).value;
            token in end.objects && s.objects[token].lastUsed <= end.objects[token].lastUsed && NoOverlap(end, token)
  {
    hide Inv, Next, NoOverlap, InWindow;
    if actions != [] {
      var front, last := actions[..|actions| - 1], actions[|actions| - 1];
      forall n | 0 <= n <= |front| ensures front[..n] == actions[..n] {
      }
      LastUsedRises(s, front, token);
      RunKeepsInv(s, front);
      assert actions[..|actions|] == actions;
      NoOverlapStep(Run(Next, s, front).value, last, token);
    }
  }

  /** Thread 0 reads the clock at 0 and passes the checks; thread 1 validates at 5
      and revokes; thread 0 then writes. Its validation succeeds after the token is
      gone, and LastUsed goes back from 5 to 0. */
  lemma RaceExample() returns (actions: seq<Action>, s: State)
    ensures Run(Next, Initial(2, 0), actions) == Some(s)
    ensures s.threads[..] == [Returned(Valid), Ready] && "a" !in s.live
    ensures "a" in s.objects && s.objects["a"].lastUsed == 0
    ensures "a" in s.history && s.history["a"] == [Touch(0, 0), Touch(5, 0), Touch(0, 0)]
  {
    hide Run;
    var start := Initial(2, 0);
    RunEmpty(Next, start);
    actions, s := [], start;
    s := Take(Next, start, actions, s, BeginCreate(0, "a", "usb"));
    actions := actions + [BeginCreate(0, "a", "usb")];
    s := Take(Next, start, actions, s, Insert(0));
    actions := actions + [Insert(0)];
    assert s.threads == [Ready, Ready] && s.objects["a"] == NewSession("usb", 0);
    actions, s := PassChecks(start, actions, s, 0, "a");
    s := Take(Next, start, actions, s, Tick(5));
    actions := actions + [Tick(5)];
    assert s.now == 5 && s.threads == [Touching("a", 0, 0, 1), Ready];
    actions, s := RaceEnds(start, actions, s);
  }

  lemma RaceEnds(start: State, actions: seq<Action>, s: State) returns (all: seq<Action>, end: State)
    requires Run(Next, start, actions) == Some(s) && s.now == 5 && s.threads == [Touching("a", 0, 0, 1), Ready]
    requires "a" in s.live && "a" in s.objects && s.objects["a"] == NewSession("usb", 0)
    requires "a" in s.history && s.history["a"] == [Touch(0, 0)] && "a" in s.latest && s.latest["a"] == 0
    ensures Run(Next, start, all) == Some(end)
    ensures end.threads == [Returned(Valid), Ready] && "a" !in end.live
    ensures "a" in end.objects && end.objects["a"].lastUsed == 0
    ensures "a" in end.history && end.history["a"] == [Touch(0, 0), Touch(5, 0), Touch(0, 0)]
  {
    hide Run;
    all, end := actions, s;
    end := Take(Next, start, all, end, BeginValidate(1, "a"));
    all := all + [BeginValidate(1, "a")];
    end := Take(Next, start, all, end, Lookup(1));
    all := all + [Lookup(1)];
    end := Take(Next, start, all, end, ReadClock(1));
    all := all + [ReadClock(1)];
    end := Take(Next, start, all, end, CheckTimeouts(1));
    all := all + [CheckTimeouts(1)];
    end := Take(Next, start, all, end, WriteLastUsed(1));
    all := all + [WriteLastUsed(1)];
    end := Take(Next, start, all, end, BeginRevoke(1, "a"));
    all := all + [BeginRevoke(1, "a")];
    end := Take(Next, start, all, end, Revoke(1));
    all := all + [Revoke(1)];
    end := Take(Next, start, all, end, WriteLastUsed(0));
    all := all + [WriteLastUsed(0)];
  }


  /** Thread tid looks the token up, reads the clock and passes its checks. */
  lemma PassChecks(start: State, actions: seq<Action>, s: State, tid: nat, token: Token)
    returns (all: seq<Action>, next: State)
    requires Run(Next, start, actions) == Some(s) && tid < |s.threads| && Free(s.threads[tid])
    requires token in s.live && token in s.objects && token in s.history && token in s.latest
    requires Judge(s.objects[token], s.now) == Valid
    ensures Run(Next, start, all) == Some(next)
    ensures next == Goto(s, tid, Touching(token, s.now, s.latest[token], |s.history[token]|))
  {
    hide Run, Judge;
    next := Take(Next, start, actions, s, BeginValidate(tid, token));
    all := actions + [BeginValidate(tid, token)];
    assert next == Goto(s, tid, LookingUp(token));
    next := Take(Next, start, all, next, Lookup(tid));
    all := all + [Lookup(tid)];
    GotoTwice(s, tid, LookingUp(token), Found(token));
    next := Take(Next, start, all, next, ReadClock(tid));
    all := all + [ReadClock(tid)];
    GotoTwice(s, tid, Found(token), Clocked(token, s.now, |s.history[token]|));
    next := Take(Next, start, all, next, CheckTimeouts(tid));
    all := all + [CheckTimeouts(tid)];
    GotoTwice(s, tid, Clocked(token, s.now, |s.history[token]|), Touching(token, s.now, s.latest[token], |s.history[token]|));
  }

  lemma GotoTwice(s: State, tid: nat, pc: Pc, pc': Pc)
    requires tid < |s.threads|
    ensures Goto(Goto(s, tid, pc), tid, pc') == Goto(s, tid, pc')
  {
    assert s.threads[tid := pc][tid := pc'] == s.threads[tid := pc'];
  }

  /** It has to be the last touch written. Thread 0 reads the clock at 0, thread 1 at 1,
      thread 2 at 2; they write in the order 2, 0, 1. The write of thread 1 raises
      LastUsed, although the touch at 2 was written since it read the clock. */
  lemma OverwrittenTouchExample() returns (actions: seq<Action>, s: State)
    ensures Run(Next, Initial(3, 0), actions) == Some(s)
    ensures |s.threads| == 3 && s.threads[1] == Touching("a", 1, 0, 1)
    ensures "a" in s.history && s.history["a"] == [Touch(0, 0), Touch(2, 0), Touch(0, 0)]
    ensures "a" in s.objects && Next(s, WriteLastUsed(1)).Some? && "a" in Next(s, WriteLastUsed(1)).value.objects
    ensures s.objects["a"].lastUsed < Next(s, WriteLastUsed(1)).value.objects["a"].lastUsed
  {
    hide Run;
    var start := Initial(3, 0);
    RunEmpty(Next, start);
    s := Take(Next, start, [], start, BeginCreate(0, "a", "usb"));
    actions := [] + [BeginCreate(0, "a", "usb")];
    s := Take(Next, start, actions, s, Insert(0));
    actions := actions + [Insert(0)];
    assert s.threads == [Ready, Ready, Ready] && s.objects["a"] == NewSession("usb", 0);
    actions, s := PassChecks(start, actions, s, 0, "a");
    s := Take(Next, start, actions, s, Tick(1));
    actions := actions + [Tick(1)];
    actions, s := PassChecks(start, actions, s, 1, "a");
    s := Take(Next, start, actions, s, Tick(1));
    actions := actions + [Tick(1)];
    actions, s := PassChecks(start, actions, s, 2, "a");
    assert s.threads == [Touching("a", 0, 0, 1), Touching("a", 1, 0, 1), Touching("a", 2, 0, 1)];
    actions, s := OverwritingWrites(start, actions, s);
  }

  lemma OverwritingWrites(start: State, actions: seq<Action>, s0: State) returns (all: seq<Action>, s: State)
    requires Run(Next, start, actions) == Some(s0)
    requires s0.threads == [Touching("a", 0, 0, 1), Touching("a", 1, 0, 1), Touching("a", 2, 0, 1)]
    requires "a" in s0.history && s0.history["a"] == [Touch(0, 0)] && "a" in s0.objects
    ensures Run(Next, start, all) == Some(s) && |s.threads| == 3 && s.threads[1] == Touching("a", 1, 0, 1)
    ensures "a" in s.history && s.history["a"] == [Touch(0, 0), Touch(2, 0), Touch(0, 0)]
    ensures "a" in s.objects && s.objects["a"].lastUsed == 0
  {
    hide Run;
    s := Take(Next, start, actions, s0, WriteLastUsed(2));
    all := actions + [WriteLastUsed(2)];
    s := Take(Next, start, all, s, WriteLastUsed(0));
    all := all + [WriteLastUsed(0)];
  }
}
