/** Refresh when requests overlap: the comparison is a GET and the rotation a later SET (app/services/auth.py:140 and
    :90), and nothing holds the key in between. */
module SessionInterleaving {
  import opened Prelude
  import opened Tokens
  import opened SessionProtocol

  /** The Redis keys; the refreshes whose GET agreed, with their token; those whose GET did not, with their user; and the
      tokens accepted so far. */
  datatype State = State(keys: map<int, Entry>, matched: map<int, Token>, refused: map<int, int>, accepted: seq<Token>)

  datatype Event =
    /** parse_token and GET. */
    | Present(pid: int, token: Token, parseAt: nat, findAt: nat)
    /** New tokens for an enabled user, and SET: the refresh is accepted. */
    | Rotate(pid: int, user: User, refreshAt: nat, saveAt: nat)
    /** DEL after a mismatch or for a disabled user. */
    | Revoke(pid: int)
    /** The SET of a login or signup. */
    | Issue(userId: int, user: User, refreshAt: nat, saveAt: nat)
    /** The DEL of a logout or password change. */
    | Drop(userId: int)
    | Abort(pid: int)

  ghost predicate Enabled(s: State, e: Event) {
    match e
    case Present(pid, _, _, _) => pid !in s.matched && pid !in s.refused
    case Rotate(pid, _, _, _) => pid in s.matched
    case Revoke(pid) => pid in s.matched || pid in s.refused
    case _ => true
  }

  function UserOf(t: Token): int {
    if t.Signed? then t.claims.sub.GetOr(0) else 0
  }

  function Saved(cfg: Settings, keys: map<int, Entry>, userId: int, user: User, refreshAt: nat, saveAt: nat): map<int, Entry> {
    SaveKey(keys, userId, RefreshTokenFor(cfg, userId, user, refreshAt), RefreshTtlSeconds(cfg), saveAt)
  }

  function Apply(cfg: Settings, s: State, e: Event): State
    requires Enabled(s, e)
  {
    match e
    case Present(pid, t, parseAt, findAt) =>
      if ParseToken(t, REFRESH, parseAt).Err? then s
      else if Find(s.keys, UserOf(t), findAt) == Some(t) then s.(matched := s.matched[pid := t])
      else s.(refused := s.refused[pid := UserOf(t)])
    case Rotate(pid, user, refreshAt, saveAt) =>
      var t := s.matched[pid];
      s.(keys := Saved(cfg, s.keys, UserOf(t), user, refreshAt, saveAt), matched := s.matched - {pid}, accepted := s.accepted + [t])
    case Revoke(pid) =>
      var u := if pid in s.matched then UserOf(s.matched[pid]) else s.refused[pid];
      s.(keys := s.keys - {u}, matched := s.matched - {pid}, refused := s.refused - {pid})
    case Issue(userId, user, refreshAt, saveAt) => s.(keys := Saved(cfg, s.keys, userId, user, refreshAt, saveAt))
    case Drop(userId) => s.(keys := s.keys - {userId})
    case Abort(pid) => s.(matched := s.matched - {pid}, refused := s.refused - {pid})
  }

  ghost predicate IsRun(cfg: Settings, s: State, events: seq<Event>)
    decreases |events|
  {
    events == [] || (Enabled(s, events[0]) && IsRun(cfg, Apply(cfg, s, events[0]), events[1..]))
  }

  ghost function After(cfg: Settings, s: State, events: seq<Event>): State
    requires IsRun(cfg, s, events)
    decreases |events|
  {
    if events == [] then s else After(cfg, Apply(cfg, s, events[0]), events[1..])
  }

  /** `t` is presented while another refresh that presented it is between its GET and its SET. */
  ghost predicate Overlap(s: State, e: Event, t: Token) {
    e.Present? && e.token == t && exists pid :: pid in s.matched && s.matched[pid] == t
  }

  ghost predicate NoOverlap(cfg: Settings, s: State, events: seq<Event>, t: Token)
    requires IsRun(cfg, s, events)
    decreases |events|
  {
    events == [] || (!Overlap(s, events[0], t) && NoOverlap(cfg, Apply(cfg, s, events[0]), events[1..], t))
  }

  /** The event makes no token in the second of `t`, the only way to make `t` again. */
  ghost predicate LaterSecond(e: Event, t: Token) {
    t.Signed? && (e.Rotate? || e.Issue? ==> t.claims.iat < Epoch(e.refreshAt))
  }

  ghost predicate AllLater(events: seq<Event>, t: Token) {
    forall i :: 0 <= i < |events| ==> LaterSecond(events[i], t)
  }

  /** Only the user's own key can hold the token. */
  ghost predicate OwnKey(s: State, t: Token) {
    forall u :: u in s.keys && s.keys[u].token == t ==> u == UserOf(t)
  }

  /** Not yet accepted and in at most one hand; or accepted once, in no hand and no longer stored. */
  ghost predicate Inv(s: State, t: Token) {
    && (forall p, q :: p in s.matched && q in s.matched && s.matched[p] == t && s.matched[q] == t ==> p == q)
    && (multiset(s.accepted)[t] == 0
        || (multiset(s.accepted)[t] == 1
            && (forall p :: p in s.matched ==> s.matched[p] != t)
            && (forall u :: u in s.keys ==> s.keys[u].token != t)))
  }

  lemma RotateKeepsInv(cfg: Settings, s: State, e: Event, t: Token)
    requires Inv(s, t) && OwnKey(s, t) && e.Rotate? && Enabled(s, e) && LaterSecond(e, t)
    ensures Inv(Apply(cfg, s, e), t) && OwnKey(Apply(cfg, s, e), t)
  {
    var mine := s.matched[e.pid];
    assert multiset(s.accepted + [mine]) == multiset(s.accepted) + multiset{mine};
    assert RefreshTokenFor(cfg, UserOf(mine), e.user, e.refreshAt) != t;
  }

  lemma ApplyKeepsInv(cfg: Settings, s: State, e: Event, t: Token)
    requires Inv(s, t) && OwnKey(s, t) && Enabled(s, e) && !Overlap(s, e, t) && LaterSecond(e, t)
    ensures Inv(Apply(cfg, s, e), t) && OwnKey(Apply(cfg, s, e), t)
  {
    if e.Rotate? {
      RotateKeepsInv(cfg, s, e, t);
    }
  }

  ghost predicate Initial(s: State, t: Token) {
    s.matched == map[] && t !in s.accepted && OwnKey(s, t)
  }

  lemma {:induction false} RunKeepsInv(cfg: Settings, s: State, events: seq<Event>, t: Token)
    requires Inv(s, t) && IsRun(cfg, s, events) && NoOverlap(cfg, s, events, t) && AllLater(events, t)
    requires OwnKey(s, t)
    ensures Inv(After(cfg, s, events), t)
    decreases |events|
  {
    if events != [] {
      ApplyKeepsInv(cfg, s, events[0], t);
      assert forall i :: 0 <= i < |events[1..]| ==> events[1..][i] == events[i + 1];
      RunKeepsInv(cfg, Apply(cfg, s, events[0]), events[1..], t);
    }
  }

  /** As long as no two refreshes of a token overlap, and none of the new tokens falls in its second, it is accepted at
      most once, whatever the other requests do. */
  lemma NonOverlappingRefreshesAcceptOnce(cfg: Settings, s: State, events: seq<Event>, t: Token)
    requires Initial(s, t) && IsRun(cfg, s, events) && NoOverlap(cfg, s, events, t) && AllLater(events, t)
    ensures multiset(After(cfg, s, events).accepted)[t] <= 1
  {
    RunKeepsInv(cfg, s, events, t);
  }

  /** Where the overlap is. */
  lemma {:induction false} FirstOverlap(cfg: Settings, s: State, events: seq<Event>, t: Token)
    requires IsRun(cfg, s, events) && !NoOverlap(cfg, s, events, t)
    ensures exists i :: 0 <= i < |events| && IsRun(cfg, s, events[..i]) && Overlap(After(cfg, s, events[..i]), events[i], t)
    decreases |events|
  {
    if Overlap(s, events[0], t) {
      assert events[..0] == [] && After(cfg, s, events[..0]) == s;
    } else {
      var s', rest := Apply(cfg, s, events[0]), events[1..];
      FirstOverlap(cfg, s', rest, t);
      var j :| 0 <= j < |rest| && IsRun(cfg, s', rest[..j]) && Overlap(After(cfg, s', rest[..j]), rest[j], t);
      var front := events[..j + 1];
      assert front[0] == events[0] && front[1..] == rest[..j];
      assert After(cfg, s, front) == After(cfg, s', rest[..j]);
    }
  }

  /** Every run that accepts a token twice contains two overlapping refreshes of it. */
  lemma AcceptedTwiceOverlaps(cfg: Settings, s: State, events: seq<Event>, t: Token)
    requires Initial(s, t) && IsRun(cfg, s, events) && AllLater(events, t)
    requires 2 <= multiset(After(cfg, s, events).accepted)[t]
    ensures exists i :: 0 <= i < |events| && IsRun(cfg, s, events[..i]) && Overlap(After(cfg, s, events[..i]), events[i], t)
  {
    if NoOverlap(cfg, s, events, t) {
      NonOverlappingRefreshesAcceptOnce(cfg, s, events, t);
    }
    FirstOverlap(cfg, s, events, t);
  }

  /** And two overlapping refreshes of a stored token are both accepted; only the later answer survives them. */
  lemma OverlapAcceptsTwice(cfg: Settings, s: State, t: Token, a: int, b: int, user: User, at: nat, saveAt: nat)
    requires s.matched == map[] && s.refused == map[] && t !in s.accepted && a != b
    requires ParseToken(t, REFRESH, at).Ok? && Find(s.keys, UserOf(t), at) == Some(t) && t.claims.iat < Epoch(at)
    ensures var events := [Present(a, t, at, at), Present(b, t, at, at), Rotate(a, user, at, saveAt), Rotate(b, user, at + SECOND, saveAt)];
            && IsRun(cfg, s, events) && AllLater(events, t)
            && multiset(After(cfg, s, events).accepted)[t] == 2
            && UserOf(t) in After(cfg, s, events).keys
            && After(cfg, s, events).keys[UserOf(t)].token == RefreshTokenFor(cfg, UserOf(t), user, at + SECOND)
            && RefreshTokenFor(cfg, UserOf(t), user, at) != RefreshTokenFor(cfg, UserOf(t), user, at + SECOND)
  {
    var events := [Present(a, t, at, at), Present(b, t, at, at), Rotate(a, user, at, saveAt), Rotate(b, user, at + SECOND, saveAt)];
    var s1 := Apply(cfg, s, events[0]);
    var s2 := Apply(cfg, s1, events[1]);
    var s3 := Apply(cfg, s2, events[2]);
    var s4 := Apply(cfg, s3, events[3]);
    assert s4.accepted == s.accepted + [t] + [t];
    assert events[1..] == [events[1], events[2], events[3]];
    assert events[1..][1..] == [events[2], events[3]];
    assert events[1..][1..][1..] == [events[3]];
    assert IsRun(cfg, s4, []) && IsRun(cfg, s3, [events[3]]) && After(cfg, s3, [events[3]]) == s4;
    assert IsRun(cfg, s2, [events[2], events[3]]) && After(cfg, s2, [events[2], events[3]]) == s4;
    assert IsRun(cfg, s1, events[1..]) && After(cfg, s1, events[1..]) == s4;
    assert Epoch(at + SECOND) == Epoch(at) + 1;
  }

  /** A refresh that nothing interrupts is the serial one: accepted by a rotation, refused by a revocation, with the same
      keys. */
  lemma UninterruptedRefreshIsSerial(cfg: Settings, s: State, w: World, pid: int, t: Token, at: Conditions)
    requires pid !in s.matched && pid !in s.refused && w.keys == s.keys && at.redisReads && at.redisWrites
    ensures var (w', reply) := RefreshStep(cfg, w, t, at);
            var presented := Apply(cfg, s, Present(pid, t, at.parseAt, at.findAt));
            && (reply.TokenPair? ==>
                  pid in presented.matched && UserOf(t) in w.users
                  && Apply(cfg, presented, Rotate(pid, w.users[UserOf(t)], at.refreshAt, at.saveAt)).keys == w'.keys)
            && (reply == Rejected(RefreshNotFound) ==>
                  (pid in presented.matched || pid in presented.refused) && Apply(cfg, presented, Revoke(pid)).keys == w'.keys)
            && (reply == Rejected(UserNotFound) ==> pid in presented.matched && Apply(cfg, presented, Abort(pid)).keys == w'.keys)
            && (ParseToken(t, REFRESH, at.parseAt).Err? ==> presented == s && w' == w)
  {
  }
}
