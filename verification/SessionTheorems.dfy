/** What the refresh-token protocol guarantees over every serial run. */
module SessionTheorems {
  import opened Prelude
  import opened Tokens
  import opened SessionProtocol

  // ---------------------------------------------------------------- the invariant of runs

  ghost predicate IssueOk(cfg: Settings, w: World, e: Event, horizon: nat) {
    e.Issued? && e.token.Signed? && e.user < w.nextUserId && e.savedAt <= horizon &&
    var c := e.token.claims;
    && c.sub == Some(e.user) && c.typ == REFRESH
    && c.exp == c.iat + RefreshTtlSeconds(cfg)
    && c.iat * SECOND <= e.savedAt
    && (e.user in w.users ==> c.usn == w.users[e.user].username && c.roles == [w.users[e.user].role])
  }

  /** The second in which an issued token was made. */
  function Iat(e: Event): int {
    if e.Issued? && e.token.Signed? then e.token.claims.iat else 0
  }

  ghost predicate LogOk(cfg: Settings, w: World, log: seq<Event>, horizon: nat) {
    && (forall i :: 0 <= i < |log| && log[i].Issued? ==> IssueOk(cfg, w, log[i], horizon))
    && (forall i, j :: 0 <= i < j < |log| && log[i].Issued? && log[j].Issued? ==> Iat(log[i]) <= Iat(log[j]))
  }

  /** The one Redis key per user holds exactly what the observable history says. */
  ghost predicate KeyReflects(cfg: Settings, w: World, log: seq<Event>, u: int) {
    match LastEvent(log, u)
    case Some(Issued(_, t, s)) => u in w.keys && w.keys[u] == Entry(t, s + RefreshTtlSeconds(cfg) * SECOND)
    case _ => u !in w.keys
  }

  ghost predicate Inv(cfg: Settings, w: World, log: seq<Event>, horizon: nat) {
    && UsersValid(w)
    && LogOk(cfg, w, log, horizon)
    && forall u :: KeyReflects(cfg, w, log, u)
  }

  lemma LastEventAppend(log: seq<Event>, e: Event, u: int)
    ensures LastEvent(log + [e], u) == if e.user == u then Some(e) else LastEvent(log, u)
  {
    assert (log + [e])[..|log|] == log;
  }

  lemma {:induction false} LastEventInLog(log: seq<Event>, u: int)
    ensures LastEvent(log, u).Some? ==> LastEvent(log, u).value in log && LastEvent(log, u).value.user == u
  {
    if log != [] && log[|log| - 1].user != u {
      LastEventInLog(log[..|log| - 1], u);
    }
  }

  /** Growing the users (same names and roles, fresh ids) and moving the clock keeps the log in order. */
  lemma LogOkWeaken(cfg: Settings, w: World, w': World, log: seq<Event>, h: nat, h': nat)
    requires LogOk(cfg, w, log, h) && h <= h' && w.nextUserId <= w'.nextUserId
    requires forall u :: u in w'.users && u < w.nextUserId ==>
               u in w.users && w'.users[u].username == w.users[u].username && w'.users[u].role == w.users[u].role
    ensures LogOk(cfg, w', log, h')
  {
    forall i | 0 <= i < |log| && log[i].Issued?
      ensures IssueOk(cfg, w', log[i], h')
    {
      assert IssueOk(cfg, w, log[i], h);
    }
  }

  lemma IssueKeepsInv(cfg: Settings, w: World, log: seq<Event>, h: nat, u: int, user: User, at: Conditions)
    requires Inv(cfg, w, log, h) && at.Ordered() && h <= at.parseAt && u < w.nextUserId
    requires u in w.users ==> w.users[u].username == user.username && w.users[u].role == user.role
    requires at.redisWrites
    ensures var (w', reply) := IssueTokenPair(cfg, w, u, user, at);
            Inv(cfg, w', log + [Issued(u, reply.refresh, at.saveAt)], at.saveAt)
  {
    var (w', reply) := IssueTokenPair(cfg, w, u, user, at);
    var e := Issued(u, reply.refresh, at.saveAt);
    LogOkWeaken(cfg, w, w', log, h, at.saveAt);
    assert IssueOk(cfg, w', e, at.saveAt);
    forall i | 0 <= i < |log| && log[i].Issued?
      ensures Iat(log[i]) <= Iat(e)
    {
      assert IssueOk(cfg, w, log[i], h);
      assert Iat(log[i]) * SECOND <= at.refreshAt;
    }
    forall v
      ensures KeyReflects(cfg, w', log + [e], v)
    {
      LastEventAppend(log, e, v);
      assert KeyReflects(cfg, w, log, v);
    }
  }

  lemma RemoveKeepsInv(cfg: Settings, w: World, log: seq<Event>, h: nat, u: int, h': nat)
    requires Inv(cfg, w, log, h) && h <= h'
    ensures Inv(cfg, w.(keys := w.keys - {u}), log + [Removed(u)], h')
  {
    var w' := w.(keys := w.keys - {u});
    LogOkWeaken(cfg, w, w', log, h, h');
    forall v
      ensures KeyReflects(cfg, w', log + [Removed(u)], v)
    {
      LastEventAppend(log, Removed(u), v);
      assert KeyReflects(cfg, w, log, v);
    }
  }

  /** Turns that touch no key: rejections, and changes to the users alone. */
  lemma UsersChangeKeepsInv(cfg: Settings, w: World, w': World, log: seq<Event>, h: nat, h': nat)
    requires Inv(cfg, w, log, h) && h <= h' && w.nextUserId <= w'.nextUserId && w'.keys == w.keys
    requires UsersValid(w')
    requires forall u :: u in w'.users && u < w.nextUserId ==>
               u in w.users && w'.users[u].username == w.users[u].username && w'.users[u].role == w.users[u].role
    ensures Inv(cfg, w', log, h')
  {
    LogOkWeaken(cfg, w, w', log, h, h');
    forall v
      ensures KeyReflects(cfg, w', log, v)
    {
      assert KeyReflects(cfg, w, log, v);
    }
  }

  lemma SignupKeepsInv(cfg: Settings, w: World, log: seq<Event>, h: nat, req: Request, at: Conditions)
    requires Inv(cfg, w, log, h) && at.Ordered() && h <= at.parseAt && req.Signup?
    ensures var (w', reply) := Step(cfg, w, req, at);
            Inv(cfg, w', log + Observed(req, at, reply), at.saveAt)
  {
    var (w', reply) := Step(cfg, w, req, at);
    if reply.TokenPair? {
      var id := w.nextUserId;
      var user := User(req.newUsername, Some(req.newEmail), HashPassword(req.newPassword), CAREGIVER, true);
      var w1 := w.(nextUserId := id + 1);
      UsersChangeKeepsInv(cfg, w, w1, log, h, at.parseAt);
      var w2 := if at.commits then w1.(users := w.users[id := user]) else w1;
      UsersChangeKeepsInv(cfg, w, w2, log, h, at.parseAt);
      IssueKeepsInv(cfg, w2, log, at.parseAt, id, user, at);
      assert w' == IssueTokenPair(cfg, w2, id, user, at).0;
    } else {
      UsersChangeKeepsInv(cfg, w, w', log, h, at.saveAt);
      assert log + [] == log;
    }
  }

  lemma LoginKeepsInv(cfg: Settings, w: World, log: seq<Event>, h: nat, req: Request, at: Conditions)
    requires Inv(cfg, w, log, h) && at.Ordered() && h <= at.parseAt && req.Login?
    ensures var (w', reply) := LoginStep(cfg, w, req.username, req.password, at);
            Inv(cfg, w', log + Observed(req, at, reply), at.saveAt)
  {
    var (w', reply) := LoginStep(cfg, w, req.username, req.password, at);
    if reply.TokenPair? {
      var u := FindByUsername(w.users, req.username).value;
      IssueKeepsInv(cfg, w, log, h, u, w.users[u], at);
    } else {
      UsersChangeKeepsInv(cfg, w, w, log, h, at.saveAt);
      assert log + [] == log;
    }
  }

  lemma RefreshKeepsInv(cfg: Settings, w: World, log: seq<Event>, h: nat, req: Request, at: Conditions)
    requires Inv(cfg, w, log, h) && at.Ordered() && h <= at.parseAt && req.Refresh?
    ensures var (w', reply) := RefreshStep(cfg, w, req.token, at);
            Inv(cfg, w', log + Observed(req, at, reply), at.saveAt)
  {
    var (w', reply) := RefreshStep(cfg, w, req.token, at);
    if reply.TokenPair? {
      var u := req.token.claims.sub.GetOr(0);
      IssueKeepsInv(cfg, w, log, h, u, w.users[u], at);
    } else if reply == Rejected(RefreshNotFound) {
      RemoveKeepsInv(cfg, w, log, h, req.token.claims.sub.GetOr(0), at.saveAt);
    } else {
      UsersChangeKeepsInv(cfg, w, w, log, h, at.saveAt);
      assert log + [] == log;
    }
  }

  lemma RevocationKeepsInv(cfg: Settings, w: World, log: seq<Event>, h: nat, req: Request, at: Conditions)
    requires Inv(cfg, w, log, h) && at.Ordered() && h <= at.parseAt && (req.Logout? || req.ChangePassword?)
    ensures var (w', reply) := Step(cfg, w, req, at);
            Inv(cfg, w', log + Observed(req, at, reply), at.saveAt)
  {
    var (w', reply) := Step(cfg, w, req, at);
    if reply.Done? {
      RemoveKeepsInv(cfg, w, log, h, req.userId, at.saveAt);
      UsersChangeKeepsInv(cfg, w.(keys := w.keys - {req.userId}), w', log + [Removed(req.userId)], at.saveAt, at.saveAt);
    } else {
      UsersChangeKeepsInv(cfg, w, w, log, h, at.saveAt);
      assert log + [] == log;
    }
  }

  lemma StepKeepsInv(cfg: Settings, w: World, log: seq<Event>, h: nat, req: Request, at: Conditions)
    requires Inv(cfg, w, log, h) && at.Ordered() && h <= at.parseAt
    ensures var (w', reply) := Step(cfg, w, req, at);
            Inv(cfg, w', log + Observed(req, at, reply), at.saveAt)
  {
    match req
    case Signup(_, _, _) => SignupKeepsInv(cfg, w, log, h, req, at);
    case Login(_, _) => LoginKeepsInv(cfg, w, log, h, req, at);
    case Refresh(_) => RefreshKeepsInv(cfg, w, log, h, req, at);
    case ChangePassword(_, _, _) => RevocationKeepsInv(cfg, w, log, h, req, at);
    case Logout(_) => RevocationKeepsInv(cfg, w, log, h, req, at);
    case _ =>
      UsersChangeKeepsInv(cfg, w, Step(cfg, w, req, at).0, log, h, at.saveAt);
      assert log + [] == log;
  }

  /** The instant the last turn of a run ends. */
  function Horizon(run: seq<Turn>): nat {
    if run == [] then 0 else run[|run| - 1].at.saveAt
  }

  lemma {:induction false} RunKeepsInv(cfg: Settings, w: World, run: seq<Turn>)
    requires Genesis(w) && Serial(run)
    ensures Inv(cfg, After(cfg, w, run), Log(cfg, w, run), Horizon(run))
  {
    if run == [] {
      forall u ensures KeyReflects(cfg, w, [], u) {}
    } else {
      var before, last := run[..|run| - 1], run[|run| - 1];
      RunKeepsInv(cfg, w, before);
      StepKeepsInv(cfg, After(cfg, w, before), Log(cfg, w, before), Horizon(before), last.req, last.at);
    }
  }

  // ---------------------------------------------------------------- acceptance

  /** The request `Refresh(t)` under `at`, made after the run, is answered with new tokens. */
  ghost predicate Accepts(cfg: Settings, w: World, run: seq<Turn>, t: Token, at: Conditions) {
    ReplyTo(cfg, w, run, Turn(Refresh(t), at)).TokenPair?
  }

  ghost predicate Follows(run: seq<Turn>, at: Conditions) {
    at.Ordered() && Horizon(run) <= at.parseAt
  }

  /** Whether the log's last word on the user of `t` is the issue of `t` itself. */
  ghost predicate IsCurrent(log: seq<Event>, t: Token) {
    && t.Signed? && t.claims.sub.Some?
    && LastEvent(log, t.claims.sub.value).Some?
    && var e := LastEvent(log, t.claims.sub.value).value;
       e.Issued? && e.token == t
  }

  /** The expiry of the stored key, as a reading of the log. */
  ghost predicate KeyAlive(cfg: Settings, log: seq<Event>, t: Token, now: nat)
    requires IsCurrent(log, t)
  {
    now < LastEvent(log, t.claims.sub.value).value.savedAt + RefreshTtlSeconds(cfg) * SECOND
  }

  /** Acceptance is a property of the observable history: exactly the last issued, unexpired refresh
      token of an enabled user is accepted. */
  lemma AcceptanceCriterion(cfg: Settings, w: World, run: seq<Turn>, t: Token, at: Conditions)
    requires Genesis(w) && Serial(run) && Follows(run, at)
    ensures Accepts(cfg, w, run, t, at) <==>
            && IsCurrent(Log(cfg, w, run), t)
            && at.parseAt < t.claims.exp * SECOND
            && KeyAlive(cfg, Log(cfg, w, run), t, at.findAt)
            && t.claims.sub.value in After(cfg, w, run).users
            && After(cfg, w, run).users[t.claims.sub.value].enabled
            && at.redisReads && at.redisWrites
  {
    var log := Log(cfg, w, run);
    var now := After(cfg, w, run);
    RunKeepsInv(cfg, w, run);
    if t.Signed? && t.claims.sub.Some? {
      var u := t.claims.sub.value;
      assert KeyReflects(cfg, now, log, u);
      LastEventInLog(log, u);
      if IsCurrent(log, t) {
        var e := LastEvent(log, u).value;
        assert IssueOk(cfg, now, e, Horizon(run));
      }
    }
  }

  /** While the token is unexpired at the lookup as well, the key's own expiry plays no part. */
  lemma ExpiryOfKeyIsRedundant(cfg: Settings, w: World, run: seq<Turn>, t: Token, at: Conditions)
    requires Genesis(w) && Serial(run) && Follows(run, at)
    requires IsCurrent(Log(cfg, w, run), t) && at.findAt < t.claims.exp * SECOND
    ensures KeyAlive(cfg, Log(cfg, w, run), t, at.findAt)
  {
    RunKeepsInv(cfg, w, run);
    LastEventInLog(Log(cfg, w, run), t.claims.sub.value);
    assert IssueOk(cfg, After(cfg, w, run), LastEvent(Log(cfg, w, run), t.claims.sub.value).value, Horizon(run));
  }

  // ---------------------------------------------------------------- rotation and revocation

  lemma LogLast(cfg: Settings, w: World, run: seq<Turn>, turn: Turn)
    ensures Log(cfg, w, run + [turn]) == Log(cfg, w, run) + Observed(turn.req, turn.at, ReplyTo(cfg, w, run, turn))
  {
    var a := run + [turn];
    assert a[..|a| - 1] == run && a[|a| - 1] == turn;
  }

  lemma {:induction false} LogGrows(cfg: Settings, w: World, a: seq<Turn>, b: seq<Turn>)
    ensures Log(cfg, w, a) <= Log(cfg, w, a + b)
  {
    if b == [] {
      assert a + b == a;
    } else {
      LogGrows(cfg, w, a, b[..|b| - 1]);
      assert (a + b)[..|a + b| - 1] == a + b[..|b| - 1];
    }
  }

  ghost predicate LoggedSince(log: seq<Event>, start: nat, e: Event) {
    exists k :: start <= k < |log| && log[k] == e
  }

  lemma {:induction false} LastEventOfExtension(log: seq<Event>, more: seq<Event>, u: int)
    ensures LastEvent(log + more, u) == LastEvent(log, u)
            || (LastEvent(log + more, u).Some? && LoggedSince(log + more, |log|, LastEvent(log + more, u).value))
  {
    var all := log + more;
    if more == [] {
      assert all == log;
    } else {
      var shorter := log + more[..|more| - 1];
      assert all[..|all| - 1] == shorter;
      if all[|all| - 1].user != u {
        LastEventOfExtension(log, more[..|more| - 1], u);
        if LastEvent(shorter, u) != LastEvent(log, u) {
          var k :| |log| <= k < |shorter| && shorter[k] == LastEvent(shorter, u).value;
          assert all[k] == shorter[k];
        }
      }
    }
  }

  /** `t` was issued to its user at or after position `start` of the log. */
  ghost predicate IssuedSince(log: seq<Event>, start: nat, u: int, t: Token) {
    exists k :: start <= k < |log| && log[k].Issued? && log[k].user == u && log[k].token == t
  }

  lemma AcceptedIsCurrent(cfg: Settings, w: World, run: seq<Turn>, t: Token, at: Conditions)
    requires Genesis(w) && Serial(run) && Follows(run, at) && Accepts(cfg, w, run, t, at)
    ensures IsCurrent(Log(cfg, w, run), t)
  {
    AcceptanceCriterion(cfg, w, run, t, at);
  }

  /** A current token was current already, or was issued since. */
  lemma CurrentWasIssuedSince(log: seq<Event>, all: seq<Event>, t: Token)
    requires log <= all && IsCurrent(all, t)
    ensures IsCurrent(log, t) || IssuedSince(all, |log|, t.claims.sub.value, t)
  {
    var u := t.claims.sub.value;
    assert all == log + all[|log|..];
    LastEventOfExtension(log, all[|log|..], u);
    if LastEvent(all, u) != LastEvent(log, u) {
      LastEventInLog(all, u);
      var k :| |log| <= k < |all| && all[k] == LastEvent(all, u).value;
      assert all[k].Issued? && all[k].user == u && all[k].token == t;
    }
  }

  /** Rotation: a token refreshed in a later second than its own is never accepted again, whatever follows. */
  lemma RotatedTokenIsDead(cfg: Settings, w: World, run: seq<Turn>, t: Token, at: Conditions, rest: seq<Turn>, later: Conditions)
    requires Genesis(w) && Serial(run + [Turn(Refresh(t), at)] + rest) && Follows(run + [Turn(Refresh(t), at)] + rest, later)
    requires Accepts(cfg, w, run, t, at)
    requires t.Signed? && t.claims.iat < Epoch(at.refreshAt)
    ensures !Accepts(cfg, w, run + [Turn(Refresh(t), at)] + rest, t, later)
  {
    var turn := Turn(Refresh(t), at);
    RotationIsLogged(cfg, w, run, t, at);
    NeverCurrentAgain(cfg, w, run + [turn], rest, t, Issued(t.claims.sub.GetOr(0), ReplyTo(cfg, w, run, turn).refresh, at.saveAt));
    if Accepts(cfg, w, run + [turn] + rest, t, later) {
      AcceptedIsCurrent(cfg, w, run + [turn] + rest, t, later);
    }
  }

  lemma RotationIsLogged(cfg: Settings, w: World, run: seq<Turn>, t: Token, at: Conditions)
    requires Accepts(cfg, w, run, t, at)
    ensures t.Signed? && t.claims.sub.Some?
    ensures var e := Issued(t.claims.sub.value, ReplyTo(cfg, w, run, Turn(Refresh(t), at)).refresh, at.saveAt);
            && Log(cfg, w, run + [Turn(Refresh(t), at)]) == Log(cfg, w, run) + [e]
            && Iat(e) == Epoch(at.refreshAt)
  {
    LogLast(cfg, w, run, Turn(Refresh(t), at));
  }

  /** A token older than the last event of its user's log stays superseded. */
  lemma NeverCurrentAgain(cfg: Settings, w: World, a: seq<Turn>, rest: seq<Turn>, t: Token, e: Event)
    requires Genesis(w) && Serial(a + rest)
    requires t.Signed? && e.Issued? && Some(e.user) == t.claims.sub && t.claims.iat < Iat(e)
    requires Log(cfg, w, a) != [] && Log(cfg, w, a)[|Log(cfg, w, a)| - 1] == e
    ensures !IsCurrent(Log(cfg, w, a + rest), t)
  {
    var log, all := Log(cfg, w, a), Log(cfg, w, a + rest);
    LogGrows(cfg, w, a, rest);
    RunKeepsInv(cfg, w, a + rest);
    assert all[|log| - 1] == e;
    assert !IssuedSince(all, |log|, e.user, t) by {
      assert forall k :: |log| <= k < |all| && all[k].Issued? ==> Iat(e) <= Iat(all[k]);
    }
    if IsCurrent(all, t) {
      CurrentWasIssuedSince(Log(cfg, w, a), Log(cfg, w, a + rest), t);
    }
  }

  /** Exactly when rotation retires the token at once: when it is refreshed in another second than it was issued in. */
  lemma RotationRetiresIffLaterSecond(cfg: Settings, w: World, run: seq<Turn>, t: Token, at: Conditions)
    requires Genesis(w) && Serial(run) && Follows(run, at)
    requires Accepts(cfg, w, run, t, at)
    ensures ReplyTo(cfg, w, run, Turn(Refresh(t), at)).refresh == t <==> Epoch(at.refreshAt) == t.claims.iat
    ensures IsCurrent(Log(cfg, w, run + [Turn(Refresh(t), at)]), t) <==> Epoch(at.refreshAt) == t.claims.iat
  {
    RunKeepsInv(cfg, w, run);
    AcceptedIsCurrent(cfg, w, run, t, at);
    RotationIsLogged(cfg, w, run, t, at);
    var u := t.claims.sub.value;
    LastEventInLog(Log(cfg, w, run), u);
    assert IssueOk(cfg, After(cfg, w, run), LastEvent(Log(cfg, w, run), u).value, Horizon(run));
    LastEventAppend(Log(cfg, w, run), Issued(u, ReplyTo(cfg, w, run, Turn(Refresh(t), at)).refresh, at.saveAt), u);
  }

  /** `e` is the user's first issue at or after position `start`. */
  ghost predicate NextIssue(log: seq<Event>, start: nat, u: int, e: Event) {
    exists k :: start <= k < |log| && log[k] == e && e.Issued? && e.user == u
                && forall j :: start <= j < k && log[j].user == u ==> log[j].Removed?
  }

  /** A refresh refused as unknown (reuse, or a disabled account) leaves no current token for its user. */
  lemma RefusalEndsSession(cfg: Settings, w: World, run: seq<Turn>, t: Token, at: Conditions)
    requires ReplyTo(cfg, w, run, Turn(Refresh(t), at)) == Rejected(RefreshNotFound)
    ensures t.Signed? && t.claims.sub.Some?
    ensures forall t': Token :: t'.Signed? && t'.claims.sub == t.claims.sub ==> !IsCurrent(Log(cfg, w, run + [Turn(Refresh(t), at)]), t')
  {
    RefusedIsReadable(cfg, After(cfg, w, run), t, at);
    LogLast(cfg, w, run, Turn(Refresh(t), at));
    LastEventAppend(Log(cfg, w, run), Removed(t.claims.sub.value), t.claims.sub.value);
  }

  lemma RefusedIsReadable(cfg: Settings, w: World, t: Token, at: Conditions)
    requires RefreshStep(cfg, w, t, at).1 == Rejected(RefreshNotFound)
    ensures t.Signed? && t.claims.sub.Some?
  {
  }

  /** Reuse detection: once a refresh is refused as unknown, every token accepted for that user afterwards
      was issued afterwards, and none is older than the user's next issue. */
  lemma ReuseRevokesEverything(cfg: Settings, w: World, run: seq<Turn>, t: Token, at: Conditions, rest: seq<Turn>,
                               t': Token, later: Conditions)
    requires Genesis(w) && Serial(run + [Turn(Refresh(t), at)] + rest) && Follows(run + [Turn(Refresh(t), at)] + rest, later)
    requires ReplyTo(cfg, w, run, Turn(Refresh(t), at)) == Rejected(RefreshNotFound)
    requires t'.Signed? && t'.claims.sub == t.claims.sub
    requires Accepts(cfg, w, run + [Turn(Refresh(t), at)] + rest, t', later)
    ensures var start := |Log(cfg, w, run + [Turn(Refresh(t), at)])|;
            var all := Log(cfg, w, run + [Turn(Refresh(t), at)] + rest);
            && IssuedSince(all, start, t.claims.sub.GetOr(0), t')
            && forall e :: NextIssue(all, start, t.claims.sub.GetOr(0), e) ==> Iat(e) <= t'.claims.iat
  {
    RefusalEndsSession(cfg, w, run, t, at);
    SinceRefusal(cfg, w, run + [Turn(Refresh(t), at)], rest, t', later);
  }

  lemma SinceRefusal(cfg: Settings, w: World, a: seq<Turn>, rest: seq<Turn>, t: Token, later: Conditions)
    requires Genesis(w) && Serial(a + rest) && Follows(a + rest, later)
    requires t.Signed? && !IsCurrent(Log(cfg, w, a), t) && Accepts(cfg, w, a + rest, t, later)
    ensures IssuedSince(Log(cfg, w, a + rest), |Log(cfg, w, a)|, t.claims.sub.GetOr(0), t)
    ensures forall e :: NextIssue(Log(cfg, w, a + rest), |Log(cfg, w, a)|, t.claims.sub.GetOr(0), e) ==> Iat(e) <= t.claims.iat
  {
    AcceptedIsCurrent(cfg, w, a + rest, t, later);
    LogGrows(cfg, w, a, rest);
    CurrentWasIssuedSince(Log(cfg, w, a), Log(cfg, w, a + rest), t);
    RunKeepsInv(cfg, w, a + rest);
    NextIssueIsOldest(Log(cfg, w, a + rest), |Log(cfg, w, a)|, t.claims.sub.GetOr(0), t);
  }

  lemma NextIssueIsOldest(log: seq<Event>, start: nat, u: int, t: Token)
    requires forall i, j :: 0 <= i < j < |log| && log[i].Issued? && log[j].Issued? ==> Iat(log[i]) <= Iat(log[j])
    requires IssuedSince(log, start, u, t) && t.Signed?
    ensures forall e :: NextIssue(log, start, u, e) ==> Iat(e) <= t.claims.iat
  {
    var k :| start <= k < |log| && log[k].Issued? && log[k].user == u && log[k].token == t;
    assert Iat(log[k]) == t.claims.iat;
  }

  /** Which presentations count as reuse: any readable refresh token that is not the current one. */
  lemma ReuseIsDetected(cfg: Settings, w: World, run: seq<Turn>, t: Token, at: Conditions)
    requires Genesis(w) && Serial(run) && Follows(run, at)
    requires ParseToken(t, REFRESH, at.parseAt).Ok? && at.redisReads && at.redisWrites
    requires !IsCurrent(Log(cfg, w, run), t)
    ensures ReplyTo(cfg, w, run, Turn(Refresh(t), at)) == Rejected(RefreshNotFound)
  {
    RunKeepsInv(cfg, w, run);
    assert KeyReflects(cfg, After(cfg, w, run), Log(cfg, w, run), t.claims.sub.value);
  }

  /** "Immediately invalid" fails within one second: refreshing in the second of issue returns the same
      token, which is accepted again. */
  lemma SameSecondRefreshKeepsToken()
    ensures exists cfg: Settings, w: World, login: Turn, t: Token, c1: Conditions, c2: Conditions ::
              && Genesis(w) && Serial([login, Turn(Refresh(t), c1)]) && Follows([login, Turn(Refresh(t), c1)], c2)
              && Accepts(cfg, w, [login], t, c1)
              && Accepts(cfg, w, [login, Turn(Refresh(t), c1)], t, c2)
  {
    var cfg := Settings(15, 14, false);
    var user := User("alice", None, HashPassword([]), ADMIN, true);
    var w := World(map[1 := user], 2, map[]);
    var now := Conditions(0, 0, 0, 0, 0, true, true, true);
    var login := Turn(Login("alice", []), now);
    var t := RefreshTokenFor(cfg, 1, user, 0);
    assert 1 in w.users && w.users[1].username == "alice";
    assert FindByUsername(w.users, "alice") == Some(1);
    var run := [login];
    assert run[..0] == [];
    assert After(cfg, w, run).keys == map[1 := Entry(t, 14 * 86400 * SECOND)];
    assert Accepts(cfg, w, run, t, now);
    var run2 := [login, Turn(Refresh(t), now)];
    assert run2[..1] == run;
    assert Accepts(cfg, w, run2, t, now);
  }

  /** What a confirmed password change does: the session always ends, the password changes iff the transaction
      persists, so under read-only mode the reply confirms a change that did not happen. */
  lemma ConfirmedPasswordChange(cfg: Settings, w: World, u: int, current: seq<bv8>, next: seq<bv8>, at: Conditions)
    requires Step(cfg, w, ChangePassword(u, current, next), at).1.Done?
    ensures var w' := Step(cfg, w, ChangePassword(u, current, next), at).0;
            && u !in w'.keys && u in w'.users
            && (VerifyPassword(next, w'.users[u].passwordHash)
                <==> Persists(cfg, at) || BcryptInput(next) == BcryptInput(current))
            && (forall v :: v != u ==> (v in w.keys <==> v in w'.keys) && (v in w.keys ==> w'.keys[v] == w.keys[v]))
  {
  }

  /** Under read-only mode a correct current password is answered with success: the session is gone, and the password is
      the old one. */
  lemma ReadOnlyChangeKeepsThePassword(cfg: Settings, w: World, u: int, current: seq<bv8>, next: seq<bv8>, at: Conditions)
    requires cfg.readOnly && u in w.users && VerifyPassword(current, w.users[u].passwordHash) && at.redisWrites
    ensures var (w', reply) := Step(cfg, w, ChangePassword(u, current, next), at);
            && reply == Done && u !in w'.keys && w'.users == w.users
            && VerifyPassword(current, w'.users[u].passwordHash)
            && (VerifyPassword(next, w'.users[u].passwordHash) <==> BcryptInput(next) == BcryptInput(current))
  {
  }
}
