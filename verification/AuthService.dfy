/** The services of app/services/auth.py and UserService.set_enabled, in place, each refining its protocol step. */
module AuthService {
  import opened Prelude
  import opened Tokens
  import opened SessionProtocol
  import SessionReplies

  /** One Redis key per user.  `reachable` says whether the command is applied or raises. */
  class RefreshTokenStore {
    var keys: map<int, Entry>

    constructor ()
      ensures keys == map[]
    {
      keys := map[];
    }

    method Save(userId: int, token: Token, ttlSeconds: nat, now: nat, reachable: bool) returns (ok: bool)
      modifies this
      ensures ok == reachable
      ensures ok ==> Find(keys, userId, now) == if ttlSeconds > 0 then Some(token) else None
      ensures ok ==> forall at: nat :: now <= at ==>
                (Find(keys, userId, at).Some? <==> at < now + ttlSeconds * SECOND)
      ensures keys == if ok then old(keys)[userId := Entry(token, now + ttlSeconds * SECOND)] else old(keys)
    {
      if reachable {
        keys := keys[userId := Entry(token, now + ttlSeconds * SECOND)];
      }
      ok := reachable;
    }

    method Matches(userId: int, token: Token, now: nat, reachable: bool) returns (ok: bool, same: bool)
      ensures ok == reachable
      ensures ok ==> (same <==> Find(keys, userId, now) == Some(token))
    {
      ok, same := reachable, false;
      if reachable && userId in keys && now < keys[userId].expiresAt {
        same := keys[userId].token == token;
      }
    }

    method Remove(userId: int, reachable: bool) returns (ok: bool)
      modifies this
      ensures ok == reachable
      ensures keys == if ok then old(keys) - {userId} else old(keys)
    {
      if reachable {
        keys := keys - {userId};
      }
      ok := reachable;
    }
  }

  class AuthService {
    const cfg: Settings
    const store: RefreshTokenStore
    /** The committed rows; each request works on a copy and commits it at its end. */
    var users: map<int, User>
    var nextUserId: int

    constructor (cfg: Settings, store: RefreshTokenStore, users: map<int, User>, nextUserId: int)
      requires UsersValid(World(users, nextUserId, store.keys))
      ensures Valid() && this.cfg == cfg && this.store == store
      ensures Snapshot() == World(users, nextUserId, store.keys)
    {
      this.cfg, this.store, this.users, this.nextUserId := cfg, store, users, nextUserId;
    }

    function Snapshot(): World
      reads this, store
    {
      World(users, nextUserId, store.keys)
    }

    ghost predicate Valid()
      reads this, store
    {
      UsersValid(Snapshot())
    }

    method FetchByUsername(username: string) returns (r: Option<int>)
      requires Valid()
      ensures r == SessionProtocol.FindByUsername(users, username)
    {
      if u :| u in users && users[u].username == username {
        r := Some(u);
      } else {
        r := None;
      }
    }

    method IssuePair(userId: int, user: User, at: Conditions) returns (reply: Reply)
      modifies store
      ensures (Snapshot(), reply) == IssueTokenPair(cfg, old(Snapshot()), userId, user, at)
      ensures at.redisWrites ==> SessionReplies.PairFor(cfg, userId, user, at, reply)
                                 && SessionReplies.StoresRefresh(cfg, old(store.keys), store.keys, userId, at, reply)
      ensures !at.redisWrites ==> reply == RedisDown && store.keys == old(store.keys)
    {
      SessionReplies.IssuedPairIsFor(cfg, Snapshot(), userId, user, at);
      var access := CreateToken(cfg, userId, user.username, [user.role], ACCESS, at.accessAt);
      var refresh := CreateToken(cfg, userId, user.username, [user.role], REFRESH, at.refreshAt);
      var saved := store.Save(userId, refresh, RefreshTtlSeconds(cfg), at.saveAt, at.redisWrites);
      reply := if saved then TokenPair(access, refresh) else RedisDown;
    }

    method Login(username: string, password: seq<bv8>, at: Conditions) returns (reply: Reply)
      requires Valid()
      modifies store
      ensures Valid()
      ensures (Snapshot(), reply) == LoginStep(cfg, old(Snapshot()), username, password, at)
      ensures reply.TokenPair? <==>
                at.redisWrites && exists u :: u in users && users[u].username == username && users[u].enabled
                                              && VerifyPassword(password, users[u].passwordHash)
      ensures forall u :: reply.TokenPair? && u in users && users[u].username == username ==>
                SessionReplies.PairFor(cfg, u, users[u], at, reply)
                && SessionReplies.StoresRefresh(cfg, old(store.keys), store.keys, u, at, reply)
      ensures !reply.TokenPair? ==> store.keys == old(store.keys)
    {
      SessionReplies.LoginAnswers(cfg, Snapshot(), username, password, at);
      assert forall u :: SessionReplies.Named(Snapshot(), username, u) <==> u in users && users[u].username == username;
      assert forall u :: (SessionReplies.MayLogIn(Snapshot(), username, password, u) <==>
                          u in users && users[u].username == username && users[u].enabled
                          && VerifyPassword(password, users[u].passwordHash));
      var found := FetchByUsername(username);
      if found.None? {
        return Rejected(InvalidCredentials);
      }
      var user := users[found.value];
      if !user.enabled {
        return Rejected(AccountDisabled);
      }
      if !VerifyPassword(password, user.passwordHash) {
        return Rejected(InvalidCredentials);
      }
      reply := IssuePair(found.value, user, at);
    }

    method Refresh(token: Token, at: Conditions) returns (reply: Reply)
      requires Valid()
      modifies store
      ensures Valid()
      ensures (Snapshot(), reply) == RefreshStep(cfg, old(Snapshot()), token, at)
    {
      var parsed := ParseToken(token, REFRESH, at.parseAt);
      if parsed.Err? {
        return Rejected(parsed.error);
      }
      var userId := parsed.value.sub.GetOr(0);
      var up, same := store.Matches(userId, token, at.findAt, at.redisReads);
      if !up {
        return RedisDown;
      }
      if !same {
        reply := Revoke(userId, at);
        return;
      }
      if userId !in users {
        return Rejected(UserNotFound);
      }
      if !users[userId].enabled {
        reply := Revoke(userId, at);
        return;
      }
      reply := IssuePair(userId, users[userId], at);
    }

    method Revoke(userId: int, at: Conditions) returns (reply: Reply)
      modifies store
      ensures (Snapshot(), reply) == SessionProtocol.Remove(old(Snapshot()), userId, Rejected(RefreshNotFound), at)
    {
      var removed := store.Remove(userId, at.redisWrites);
      reply := if removed then Rejected(RefreshNotFound) else RedisDown;
    }

    method Logout(userId: int, at: Conditions) returns (reply: Reply)
      requires Valid()
      modifies store
      ensures Valid()
      ensures (Snapshot(), reply) == SessionProtocol.Remove(old(Snapshot()), userId, Done, at)
    {
      var removed := store.Remove(userId, at.redisWrites);
      reply := if removed then Done else RedisDown;
    }

    method ChangePassword(userId: int, current: seq<bv8>, next: seq<bv8>, at: Conditions) returns (reply: Reply)
      requires Valid()
      modifies this, store
      ensures Valid()
      ensures (Snapshot(), reply) == ChangePasswordStep(cfg, old(Snapshot()), userId, current, next, at)
    {
      if userId !in users {
        return Rejected(UserNotFound);
      }
      if !VerifyPassword(current, users[userId].passwordHash) {
        return Rejected(InvalidCredentials);
      }
      var working := users[userId := users[userId].(passwordHash := HashPassword(next))];
      var removed := store.Remove(userId, at.redisWrites);
      if !removed {
        return RedisDown;
      }
      if Persists(cfg, at) {
        users := working;
      }
      reply := Done;
    }

    method SignupAsCaregiver(username: string, email: string, password: seq<bv8>, at: Conditions) returns (reply: Reply)
      requires Valid()
      modifies this, store
      ensures Valid()
      ensures (Snapshot(), reply) == SignupStep(cfg, old(Snapshot()), username, email, password, at)
    {
      if exists u :: u in users && users[u].username == username {
        return Rejected(UsernameDuplicated);
      }
      if exists u :: u in users && users[u].email == Some(email) {
        return Rejected(EmailDuplicated);
      }
      if cfg.readOnly {
        return Rejected(ReadOnlyMode);
      }
      var user := User(username, Some(email), HashPassword(password), CAREGIVER, true);
      var id := nextUserId;
      nextUserId := nextUserId + 1;
      var working := users[id := user];
      reply := IssuePair(id, user, at);
      if reply.TokenPair? && at.commits {
        users := working;
      }
    }

    method SetEnabled(userId: int, enabled: bool, at: Conditions) returns (reply: Reply)
      requires Valid()
      modifies this
      ensures Valid()
      ensures (Snapshot(), reply) == SetEnabledStep(cfg, old(Snapshot()), userId, enabled, at)
    {
      if userId !in users {
        return Rejected(UserNotFound);
      }
      var working := users[userId := users[userId].(enabled := enabled)];
      if Persists(cfg, at) {
        users := working;
      }
      reply := Done;
    }
  }
}
