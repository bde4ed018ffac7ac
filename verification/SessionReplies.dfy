/** What the replies of the session services mean, stated on users, passwords and tokens (app/services/auth.py:86-193). */
module SessionReplies {
  import opened Prelude
  import opened Tokens
  import opened SessionProtocol
  import opened SessionTheorems

  // ---------------------------------------------------------------- passwords

  /** A hash accepts the password it was made from, and others that agree with it in their first 72 bytes. */
  lemma PasswordVerifiesIffSameBytes(p: seq<bv8>, q: seq<bv8>)
    ensures VerifyPassword(p, HashPassword(q)) <==> p == q || (|p| >= 72 && |q| >= 72 && p[..72] == q[..72])
  {
    if |p| == 72 { assert p[..72] == p; }
    if |q| == 72 { assert q[..72] == q; }
  }

  // ---------------------------------------------------------------- token pairs

  /** The token reads as this user's, for this long from its second of issue, as this type and as no other. */
  ghost predicate ReadsAs(token: Token, typ: TokenType, userId: int, user: User, issued: nat, lifetime: nat) {
    && (forall now: nat ::
          ParseToken(token, typ, now).Ok? <==> issued / SECOND <= now / SECOND < issued / SECOND + lifetime)
    && (forall now: nat :: ParseToken(token, typ, now).Ok? ==>
          var c := ParseToken(token, typ, now).value;
          c.sub == Some(userId) && c.usn == user.username && c.roles == [user.role])
    && (forall other, now: nat :: other != typ ==> ParseToken(token, other, now).Err?)
  }

  lemma CreatedReadsAs(cfg: Settings, userId: int, user: User, typ: TokenType, issued: nat)
    ensures ReadsAs(CreateToken(cfg, userId, user.username, [user.role], typ, issued), typ, userId, user, issued,
                    if typ == ACCESS then cfg.accessTtlMinutes * 60 else cfg.refreshTtlDays * 86400)
  {
    var token := CreateToken(cfg, userId, user.username, [user.role], typ, issued);
    forall now: nat, expected
      ensures ParseToken(token, expected, now).Ok?
              <==> expected == typ && issued / SECOND <= now / SECOND < issued / SECOND + TtlSeconds(cfg, typ)
      ensures ParseToken(token, expected, now).Ok? ==>
                var c := ParseToken(token, expected, now).value;
                c.sub == Some(userId) && c.usn == user.username && c.roles == [user.role]
    {
      CreatedTokenParses(cfg, userId, user.username, [user.role], typ, issued, expected, now);
    }
  }

  /** An access and a refresh token of this user, each with its own lifetime. */
  ghost predicate PairFor(cfg: Settings, userId: int, user: User, at: Conditions, reply: Reply) {
    && reply.TokenPair?
    && ReadsAs(reply.access, ACCESS, userId, user, at.accessAt, cfg.accessTtlMinutes * 60)
    && ReadsAs(reply.refresh, REFRESH, userId, user, at.refreshAt, cfg.refreshTtlDays * 86400)
  }

  /** The stored key holds the refresh token of the pair, for the refresh lifetime, and no other key changes. */
  ghost predicate StoresRefresh(cfg: Settings, keys: map<int, Entry>, keys': map<int, Entry>, userId: int, at: Conditions, reply: Reply) {
    && reply.TokenPair? && keys' == keys[userId := Entry(reply.refresh, at.saveAt + cfg.refreshTtlDays * 86400 * SECOND)]
  }

  lemma IssuedPairIsFor(cfg: Settings, w: World, userId: int, user: User, at: Conditions)
    ensures var (w', reply) := IssueTokenPair(cfg, w, userId, user, at);
            if at.redisWrites
            then PairFor(cfg, userId, user, at, reply) && StoresRefresh(cfg, w.keys, w'.keys, userId, at, reply) && w'.users == w.users
            else reply == RedisDown && w' == w
  {
    CreatedReadsAs(cfg, userId, user, ACCESS, at.accessAt);
    CreatedReadsAs(cfg, userId, user, REFRESH, at.refreshAt);
  }

  // ---------------------------------------------------------------- login

  ghost predicate Named(w: World, username: string, u: int) {
    u in w.users && w.users[u].username == username
  }

  /** The user of that name, enabled, whose password this is. */
  ghost predicate MayLogIn(w: World, username: string, password: seq<bv8>, u: int) {
    Named(w, username, u) && w.users[u].enabled && VerifyPassword(password, w.users[u].passwordHash)
  }

  ghost predicate CanLogIn(w: World, username: string, password: seq<bv8>) {
    exists u :: MayLogIn(w, username, password, u)
  }

  /** Login answers with the pair of exactly the enabled user of that name whose password was sent; says which refusal
      each other case gets; and a refused login leaves every key alone. */
  lemma LoginAnswers(cfg: Settings, w: World, username: string, password: seq<bv8>, at: Conditions)
    requires UsersValid(w)
    ensures var (w', reply) := Step(cfg, w, Login(username, password), at);
            && (reply.TokenPair? <==> at.redisWrites && CanLogIn(w, username, password))
            && (forall u :: reply.TokenPair? && Named(w, username, u) ==>
                  MayLogIn(w, username, password, u) && PairFor(cfg, u, w.users[u], at, reply)
                  && StoresRefresh(cfg, w.keys, w'.keys, u, at, reply))
            && (reply == Rejected(AccountDisabled) <==> exists u :: Named(w, username, u) && !w.users[u].enabled)
            && (reply == Rejected(InvalidCredentials)
                <==> forall u :: Named(w, username, u) ==> w.users[u].enabled && !VerifyPassword(password, w.users[u].passwordHash))
            && (reply == RedisDown <==> !at.redisWrites && CanLogIn(w, username, password))
            && (!reply.TokenPair? ==> w' == w) && w'.users == w.users
  {
    match FindByUsername(w.users, username)
    case None => assert forall u :: !Named(w, username, u);
    case Some(v) =>
      assert Named(w, username, v);
      assert forall u :: Named(w, username, u) ==> u == v;
      assert MayLogIn(w, username, password, v) <==> CanLogIn(w, username, password);
      IssuedPairIsFor(cfg, w, v, w.users[v], at);
  }

  // ---------------------------------------------------------------- refresh

  /** What each refusal of a refresh means, and what it does to the keys. */
  lemma RefreshAnswers(cfg: Settings, w: World, token: Token, at: Conditions)
    ensures var (w', reply) := Step(cfg, w, Refresh(token), at);
            var parsed := ParseToken(token, REFRESH, at.parseAt);
            && w'.users == w.users
            && (parsed.Err? ==> reply == Rejected(parsed.error) && w' == w)
            && (parsed.Ok? && !at.redisReads ==> reply == RedisDown && w' == w)
            && (parsed.Ok? && at.redisReads ==>
                  var u := parsed.value.sub.GetOr(0);
                  var stored := u in w.keys && at.findAt < w.keys[u].expiresAt && w.keys[u].token == token;
                  && (!stored || (u in w.users && !w.users[u].enabled) ==>
                        if at.redisWrites then reply == Rejected(RefreshNotFound) && w'.keys == w.keys - {u}
                        else reply == RedisDown && w' == w)
                  && (stored && u !in w.users ==> reply == Rejected(UserNotFound) && w' == w)
                  && (stored && u in w.users && w.users[u].enabled ==>
                        if at.redisWrites then PairFor(cfg, u, w.users[u], at, reply) && StoresRefresh(cfg, w.keys, w'.keys, u, at, reply)
                        else reply == RedisDown && w' == w))
  {
    var parsed := ParseToken(token, REFRESH, at.parseAt);
    if parsed.Ok? && parsed.value.sub.GetOr(0) in w.users {
      var u := parsed.value.sub.GetOr(0);
      IssuedPairIsFor(cfg, w, u, w.users[u], at);
    }
  }

  // ---------------------------------------------------------------- signup, enabling

  ghost predicate Caregiver(user: User, username: string, email: string, password: seq<bv8>) {
    && user.username == username && user.email == Some(email) && user.role == CAREGIVER && user.enabled
    && VerifyPassword(password, user.passwordHash)
  }

  /** A signup creates an enabled caregiver under a fresh id who can log in with the password sent, answers with that
      user's pair, and refuses exactly a taken username, a taken email and a read-only database. */
  lemma SignupAnswers(cfg: Settings, w: World, username: string, email: string, password: seq<bv8>, at: Conditions)
    requires UsersValid(w)
    ensures var (w', reply) := Step(cfg, w, Signup(username, email, password), at);
            var id := w.nextUserId;
            && (reply == Rejected(UsernameDuplicated) <==> exists u :: Named(w, username, u))
            && (reply == Rejected(EmailDuplicated)
                <==> (forall u :: !Named(w, username, u)) && exists u :: u in w.users && w.users[u].email == Some(email))
            && (reply == Rejected(ReadOnlyMode)
                <==> cfg.readOnly && (forall u :: !Named(w, username, u)) && (forall u :: u in w.users ==> w.users[u].email != Some(email)))
            && (reply.Rejected? ==> w' == w)
            && (!reply.Rejected? ==> id !in w.users && w'.nextUserId == id + 1 && reply.TokenPair? == at.redisWrites)
            && (reply.TokenPair? ==>
                  && StoresRefresh(cfg, w.keys, w'.keys, id, at, reply)
                  && exists user :: Caregiver(user, username, email, password) && PairFor(cfg, id, user, at, reply)
                                    && w'.users == if at.commits then w.users[id := user] else w.users)
  {
    assert forall u :: Named(w, username, u) <==> u in w.users && w.users[u].username == username;
    var user := User(username, Some(email), HashPassword(password), CAREGIVER, true);
    IssuedPairIsFor(cfg, w.(nextUserId := w.nextUserId + 1), w.nextUserId, user, at);
    PasswordVerifiesIffSameBytes(password, password);
    assert Caregiver(user, username, email, password);
  }

  /** Enabling and disabling touches the flag of one existing user and no session. */
  lemma SetEnabledAnswers(cfg: Settings, w: World, userId: int, enabled: bool, at: Conditions)
    ensures var (w', reply) := Step(cfg, w, SetEnabled(userId, enabled), at);
            && (reply == Done <==> userId in w.users) && (reply != Done ==> reply == Rejected(UserNotFound))
            && w'.keys == w.keys && w'.users.Keys == w.users.Keys
            && (forall u :: u in w.users && u != userId ==> w'.users[u] == w.users[u])
            && (userId in w.users ==>
                  && w'.users[userId].enabled == (if at.commits && !cfg.readOnly then enabled else w.users[userId].enabled)
                  && w'.users[userId].(enabled := w.users[userId].enabled) == w.users[userId])
  {
  }

  /** A password change is confirmed exactly for the right current password, and refused without effect otherwise. */
  lemma ChangePasswordAnswers(cfg: Settings, w: World, u: int, current: seq<bv8>, next: seq<bv8>, at: Conditions)
    ensures var (w', reply) := Step(cfg, w, ChangePassword(u, current, next), at);
            && (reply == Done <==> u in w.users && VerifyPassword(current, w.users[u].passwordHash) && at.redisWrites)
            && (reply == Rejected(UserNotFound) <==> u !in w.users)
            && (reply == Rejected(InvalidCredentials) <==> u in w.users && !VerifyPassword(current, w.users[u].passwordHash))
            && (reply != Done ==> w' == w)
            && (reply == Done ==>
                  && w'.keys == w.keys - {u} && w'.users.Keys == w.users.Keys
                  && (forall v :: v in w.users && v != u ==> w'.users[v] == w.users[v])
                  && w'.users[u].(passwordHash := w.users[u].passwordHash) == w.users[u])
  {
  }

  // ---------------------------------------------------------------- over runs

  ghost predicate OwnPair(cfg: Settings, w: World, u: int, at: Conditions, reply: Reply) {
    u in w.users && w.users[u].enabled && PairFor(cfg, u, w.users[u], at, reply)
  }

  ghost predicate NewPair(cfg: Settings, w: World, req: Request, at: Conditions, reply: Reply)
    requires req.Signup?
  {
    w.nextUserId !in w.users
    && exists user :: Caregiver(user, req.newUsername, req.newEmail, req.newPassword) && PairFor(cfg, w.nextUserId, user, at, reply)
  }

  lemma StepNamesItsUser(cfg: Settings, w: World, req: Request, at: Conditions)
    requires UsersValid(w) && Step(cfg, w, req, at).1.TokenPair?
    ensures req.Login? || req.Refresh? || req.Signup?
    ensures if req.Signup? then NewPair(cfg, w, req, at, Step(cfg, w, req, at).1)
            else exists u :: OwnPair(cfg, w, u, at, Step(cfg, w, req, at).1)
  {
    match req
    case Login(username, password) =>
      LoginAnswers(cfg, w, username, password, at);
      var u :| MayLogIn(w, username, password, u);
      assert Named(w, username, u);
      assert OwnPair(cfg, w, u, at, Step(cfg, w, req, at).1);
    case Refresh(token) =>
      RefreshAnswers(cfg, w, token, at);
      assert OwnPair(cfg, w, ParseToken(token, REFRESH, at.parseAt).value.sub.GetOr(0), at, Step(cfg, w, req, at).1);
    case Signup(username, email, password) => SignupAnswers(cfg, w, username, email, password, at);
    case _ =>
  }

  /** Over every run: whoever is answered with tokens, they are that user's own, with the role of the committed row; a
      login or refresh answers for an enabled user only, a signup for the caregiver it creates. */
  lemma TokensNameTheirUser(cfg: Settings, w: World, run: seq<Turn>, turn: Turn)
    requires Genesis(w) && Serial(run) && ReplyTo(cfg, w, run, turn).TokenPair?
    ensures turn.req.Login? || turn.req.Refresh? || turn.req.Signup?
    ensures if turn.req.Signup? then NewPair(cfg, After(cfg, w, run), turn.req, turn.at, ReplyTo(cfg, w, run, turn))
            else exists u :: OwnPair(cfg, After(cfg, w, run), u, turn.at, ReplyTo(cfg, w, run, turn))
  {
    RunKeepsInv(cfg, w, run);
    StepNamesItsUser(cfg, After(cfg, w, run), turn.req, turn.at);
  }
}
