/** The refresh-token protocol as a state machine: app/services/auth.py over one Redis key per user.
    One turn is one request; turns are serial, but every clock reading inside a turn is separate. */
module SessionProtocol {
  import opened Prelude
  import opened Tokens

  /** bcrypt, idealised: a hash determines the (at most 72-byte) input it was made from. */
  datatype Hash = Hash(input: seq<bv8>)

  function BcryptInput(plain: seq<bv8>): seq<bv8> {
    if |plain| > 72 then plain[..72] else plain
  }

  function HashPassword(plain: seq<bv8>): Hash {
    Hash(BcryptInput(plain))
  }

  predicate VerifyPassword(plain: seq<bv8>, hash: Hash) {
    BcryptInput(plain) == hash.input
  }

  datatype User = User(username: string, email: Option<string>, passwordHash: Hash, role: Role, enabled: bool)

  /** A Redis string and the instant it expires. */
  datatype Entry = Entry(token: Token, expiresAt: int)

  /** The committed users, the next value of their id sequence, and the Redis keys. */
  datatype World = World(users: map<int, User>, nextUserId: int, keys: map<int, Entry>)

  datatype Request =
    | Login(username: string, password: seq<bv8>)
    | Refresh(token: Token)
    | Logout(userId: int)
    | ChangePassword(userId: int, current: seq<bv8>, next: seq<bv8>)
    | Signup(newUsername: string, newEmail: string, newPassword: seq<bv8>)
    | SetEnabled(userId: int, enabled: bool)
    | AddUser(user: User)

  /** What a request meets: its clock readings, which Redis commands raise instead of applying,
      and whether the commit after the reply holds. */
  datatype Conditions = Conditions(
    parseAt: nat, findAt: nat, accessAt: nat, refreshAt: nat, saveAt: nat,
    redisReads: bool, redisWrites: bool, commits: bool)
  {
    predicate Ordered() {
      parseAt <= findAt <= accessAt <= refreshAt <= saveAt
    }
  }

  datatype Reply =
    | TokenPair(access: Token, refresh: Token)
    | Done
    | Rejected(error: AuthError)
    | RedisDown

  /** The user a username names; the column is unique. */
  ghost function FindByUsername(users: map<int, User>, username: string): (r: Option<int>)
    ensures r.Some? ==> r.value in users && users[r.value].username == username
    ensures r.None? ==> forall u :: u in users ==> users[u].username != username
  {
    if u :| u in users && users[u].username == username then Some(u) else None
  }

  predicate ExistsUsername(users: map<int, User>, username: string) {
    exists u :: u in users && users[u].username == username
  }

  predicate ExistsEmail(users: map<int, User>, email: string) {
    exists u :: u in users && users[u].email == Some(email)
  }

  /** GET at `now`: a key that has expired is absent. */
  function Find(keys: map<int, Entry>, userId: int, now: nat): Option<Token> {
    if userId in keys && now < keys[userId].expiresAt then Some(keys[userId].token) else None
  }

  function SaveKey(keys: map<int, Entry>, userId: int, token: Token, ttlSeconds: nat, now: nat): map<int, Entry> {
    keys[userId := Entry(token, now + ttlSeconds * SECOND)]
  }

  function RefreshTokenFor(cfg: Settings, userId: int, user: User, now: nat): Token {
    CreateToken(cfg, userId, user.username, [user.role], REFRESH, now)
  }

  function IssueTokenPair(cfg: Settings, w: World, userId: int, user: User, at: Conditions): (World, Reply) {
    var access := CreateToken(cfg, userId, user.username, [user.role], ACCESS, at.accessAt);
    var refresh := RefreshTokenFor(cfg, userId, user, at.refreshAt);
    if !at.redisWrites then (w, RedisDown)
    else (w.(keys := SaveKey(w.keys, userId, refresh, RefreshTtlSeconds(cfg), at.saveAt)), TokenPair(access, refresh))
  }

  function Remove(w: World, userId: int, reply: Reply, at: Conditions): (World, Reply) {
    if !at.redisWrites then (w, RedisDown) else (w.(keys := w.keys - {userId}), reply)
  }

  ghost function LoginStep(cfg: Settings, w: World, username: string, password: seq<bv8>, at: Conditions): (World, Reply) {
    match FindByUsername(w.users, username)
    case None => (w, Rejected(InvalidCredentials))
    case Some(u) =>
      if !w.users[u].enabled then (w, Rejected(AccountDisabled))
      else if !VerifyPassword(password, w.users[u].passwordHash) then (w, Rejected(InvalidCredentials))
      else IssueTokenPair(cfg, w, u, w.users[u], at)
  }

  function RefreshStep(cfg: Settings, w: World, token: Token, at: Conditions): (World, Reply) {
    match ParseToken(token, REFRESH, at.parseAt)
    case Err(e) => (w, Rejected(e))
    case Ok(c) =>
      var u := c.sub.GetOr(0);
      if !at.redisReads then (w, RedisDown)
      else if Find(w.keys, u, at.findAt) != Some(token) then Remove(w, u, Rejected(RefreshNotFound), at)
      else if u !in w.users then (w, Rejected(UserNotFound))
      else if !w.users[u].enabled then Remove(w, u, Rejected(RefreshNotFound), at)
      else IssueTokenPair(cfg, w, u, w.users[u], at)
  }

  /** In read-only mode the request's transaction is rolled back instead of committed. */
  predicate Persists(cfg: Settings, at: Conditions) {
    at.commits && !cfg.readOnly
  }

  function ChangePasswordStep(cfg: Settings, w: World, userId: int, current: seq<bv8>, next: seq<bv8>, at: Conditions): (World, Reply) {
    if userId !in w.users then (w, Rejected(UserNotFound))
    else if !VerifyPassword(current, w.users[userId].passwordHash) then (w, Rejected(InvalidCredentials))
    else
      var (w', reply) := Remove(w, userId, Done, at);
      if reply.Done? && Persists(cfg, at)
      then (w'.(users := w.users[userId := w.users[userId].(passwordHash := HashPassword(next))]), reply)
      else (w', reply)
  }

  /** The INSERT is flushed before the tokens are issued, so a read-only database stops the signup there;
      a rollback afterwards gives back the row but not the id. */
  function SignupStep(cfg: Settings, w: World, username: string, email: string, password: seq<bv8>, at: Conditions): (World, Reply) {
    if ExistsUsername(w.users, username) then (w, Rejected(UsernameDuplicated))
    else if ExistsEmail(w.users, email) then (w, Rejected(EmailDuplicated))
    else if cfg.readOnly then (w, Rejected(ReadOnlyMode))
    else
      var user := User(username, Some(email), HashPassword(password), CAREGIVER, true);
      var (w', reply) := IssueTokenPair(cfg, w.(nextUserId := w.nextUserId + 1), w.nextUserId, user, at);
      if reply.TokenPair? && at.commits then (w'.(users := w.users[w.nextUserId := user]), reply) else (w', reply)
  }

  function SetEnabledStep(cfg: Settings, w: World, userId: int, enabled: bool, at: Conditions): (World, Reply) {
    if userId !in w.users then (w, Rejected(UserNotFound))
    else if Persists(cfg, at) then (w.(users := w.users[userId := w.users[userId].(enabled := enabled)]), Done)
    else (w, Done)
  }

  /** Worker registration: a row without tokens. */
  function AddUserStep(cfg: Settings, w: World, user: User, at: Conditions): (World, Reply) {
    if ExistsUsername(w.users, user.username) then (w, Rejected(UsernameDuplicated))
    else if cfg.readOnly then (w, Rejected(ReadOnlyMode))
    else
      var w' := w.(nextUserId := w.nextUserId + 1);
      (if at.commits then w'.(users := w.users[w.nextUserId := user]) else w', Done)
  }

  ghost function Step(cfg: Settings, w: World, req: Request, at: Conditions): (World, Reply) {
    match req
    case Login(username, password) => LoginStep(cfg, w, username, password, at)
    case Refresh(token) => RefreshStep(cfg, w, token, at)
    case Logout(u) => Remove(w, u, Done, at)
    case ChangePassword(u, current, next) => ChangePasswordStep(cfg, w, u, current, next, at)
    case Signup(username, email, password) => SignupStep(cfg, w, username, email, password, at)
    case SetEnabled(u, enabled) => SetEnabledStep(cfg, w, u, enabled, at)
    case AddUser(user) => AddUserStep(cfg, w, user, at)
  }

  // ---------------------------------------------------------------- runs

  datatype Turn = Turn(req: Request, at: Conditions)

  ghost predicate Genesis(w: World) {
    && w.keys == map[]
    && UsersValid(w)
  }

  ghost predicate UsersValid(w: World) {
    && (forall u :: u in w.users ==> u < w.nextUserId)
    && (forall u, v :: u in w.users && v in w.users && w.users[u].username == w.users[v].username ==> u == v)
  }

  /** One request at a time, on a clock that never goes back. */
  ghost predicate Serial(run: seq<Turn>) {
    && (forall i :: 0 <= i < |run| ==> run[i].at.Ordered())
    && (forall i, j :: 0 <= i < j < |run| ==> run[i].at.saveAt <= run[j].at.parseAt)
  }

  ghost function After(cfg: Settings, w: World, run: seq<Turn>): World {
    if run == [] then w
    else Step(cfg, After(cfg, w, run[..|run| - 1]), run[|run| - 1].req, run[|run| - 1].at).0
  }

  ghost function ReplyTo(cfg: Settings, w: World, run: seq<Turn>, turn: Turn): Reply {
    Step(cfg, After(cfg, w, run), turn.req, turn.at).1
  }

  // ---------------------------------------------------------------- what an observer of replies can log

  /** `Issued`: this user was sent this refresh token.  `Removed`: this user's session was revoked. */
  datatype Event = Issued(user: int, token: Token, savedAt: nat) | Removed(user: int)

  /** The save-or-remove events readable off one request and its reply, without looking at Redis. */
  function Observed(req: Request, at: Conditions, reply: Reply): seq<Event> {
    match reply
    case TokenPair(_, Signed(c)) => [Issued(c.sub.GetOr(0), Signed(c), at.saveAt)]
    case Rejected(RefreshNotFound) =>
      if req.Refresh? && req.token.Signed? then [Removed(req.token.claims.sub.GetOr(0))] else []
    case Done => if req.Logout? || req.ChangePassword? then [Removed(req.userId)] else []
    case _ => []
  }

  ghost function Log(cfg: Settings, w: World, run: seq<Turn>): seq<Event> {
    if run == [] then []
    else
      var before, last := run[..|run| - 1], run[|run| - 1];
      Log(cfg, w, before) + Observed(last.req, last.at, ReplyTo(cfg, w, before, last))
  }

  function LastEvent(log: seq<Event>, user: int): Option<Event> {
    if log == [] then None
    else if log[|log| - 1].user == user then Some(log[|log| - 1])
    else LastEvent(log[..|log| - 1], user)
  }
}
