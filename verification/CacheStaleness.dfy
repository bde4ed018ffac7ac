/** The read-through cache under arbitrary interleaving: fills, evictions and commits of any number of requests,
    any of whose Redis commands may silently do nothing.  A cached model is a map of parts (the row of a company;
    the row, the process list and the company name of a job standard), each read by its own statement. */
module CacheStaleness {
  import opened Prelude

  /** A value and the instant it was committed (in a history) or read (in a fill or an entry). */
  datatype Stamped<V> = Stamped(value: V, at: nat)

  datatype Entry<P, V> = Entry(parts: map<P, Stamped<V>>, expiresAt: nat)

  datatype Fill<K, P, V> = Fill(key: K, parts: map<P, Stamped<V>>)

  /** The committed history of every part, the Redis keys and the requests between their miss and their set. */
  datatype State<K, P, V> = State(
    now: nat, history: map<P, seq<Stamped<V>>>, cache: map<K, Entry<P, V>>, fills: map<int, Fill<K, P, V>>)

  datatype Step<K, P, V> =
    | Advance(ticks: nat)
    | Commit(part: P, value: V)
    | StartFill(pid: int, key: K)
    | ReadPart(pid: int, part: P)
    | FinishFill(pid: int, applied: bool)
    | Delete(key: K)

  /** `delay` bounds the time from any read of a fill to the instant its SET is applied. */
  ghost predicate Enabled<K(!new), P(!new), V(!new)>(delay: nat, s: State<K, P, V>, step: Step<K, P, V>) {
    match step
    case Advance(_) => true
    case Commit(_, _) => true
    case StartFill(pid, _) => pid !in s.fills
    case ReadPart(pid, p) => pid in s.fills && p !in s.fills[pid].parts && p in s.history && s.history[p] != []
    case FinishFill(pid, applied) =>
      pid in s.fills && (applied ==> forall p :: p in s.fills[pid].parts ==> s.now <= s.fills[pid].parts[p].at + delay)
    case Delete(_) => true
  }

  function HistoryOf<K, P, V>(s: State<K, P, V>, p: P): seq<Stamped<V>> {
    if p in s.history then s.history[p] else []
  }

  function Current<K, P, V>(s: State<K, P, V>, p: P): V
    requires p in s.history && s.history[p] != []
  {
    s.history[p][|s.history[p]| - 1].value
  }

  ghost function Apply<K(!new), P(!new), V(!new)>(delay: nat, s: State<K, P, V>, step: Step<K, P, V>): State<K, P, V>
    requires Enabled(delay, s, step)
  {
    match step
    case Advance(d) => s.(now := s.now + d)
    case Commit(p, v) => s.(history := s.history[p := HistoryOf(s, p) + [Stamped(v, s.now)]])
    case StartFill(pid, k) => s.(fills := s.fills[pid := Fill(k, map[])])
    case ReadPart(pid, p) =>
      var f := s.fills[pid];
      s.(fills := s.fills[pid := f.(parts := f.parts[p := Stamped(Current(s, p), s.now)])])
    case FinishFill(pid, applied) =>
      var f := s.fills[pid];
      s.(fills := s.fills - {pid},
         cache := if applied then s.cache[f.key := Entry(f.parts, s.now + CACHE_TTL)] else s.cache)
    case Delete(k) => s.(cache := s.cache - {k})
  }

  ghost predicate IsRun<K(!new), P(!new), V(!new)>(delay: nat, s: State<K, P, V>, steps: seq<Step<K, P, V>>)
    decreases |steps|
  {
    steps == [] || (Enabled(delay, s, steps[0]) && IsRun(delay, Apply(delay, s, steps[0]), steps[1..]))
  }

  ghost function After<K(!new), P(!new), V(!new)>(delay: nat, s: State<K, P, V>, steps: seq<Step<K, P, V>>): State<K, P, V>
    requires IsRun(delay, s, steps)
    decreases |steps|
  {
    if steps == [] then s else After(delay, Apply(delay, s, steps[0]), steps[1..])
  }

  /** A cold cache over committed data. */
  ghost predicate Initial<K(!new), P(!new), V(!new)>(s: State<K, P, V>) {
    s.cache == map[] && s.fills == map[] && forall p :: p in s.history ==> Chronological(s.history[p], s.now)
  }

  ghost predicate Chronological<V>(h: seq<Stamped<V>>, now: nat) {
    && (forall i :: 0 <= i < |h| ==> h[i].at <= now)
    && (forall i, j :: 0 <= i < j < |h| ==> h[i].at <= h[j].at)
  }

  /** `v` was the committed value of the part at instant `t`. */
  ghost predicate CommittedAt<V>(h: seq<Stamped<V>>, v: V, t: nat) {
    exists i :: 0 <= i < |h| && h[i].value == v && h[i].at <= t && (i + 1 < |h| ==> t <= h[i + 1].at)
  }

  /** GET at the current instant finds the entry. */
  ghost predicate Hit<K(!new), P(!new), V(!new)>(s: State<K, P, V>, k: K) {
    k in s.cache && s.now < s.cache[k].expiresAt
  }

  ghost predicate ReadsOk<K(!new), P(!new), V(!new)>(s: State<K, P, V>, parts: map<P, Stamped<V>>) {
    forall p :: p in parts ==> parts[p].at <= s.now && CommittedAt(HistoryOf(s, p), parts[p].value, parts[p].at)
  }

  ghost predicate Inv<K(!new), P(!new), V(!new)>(delay: nat, s: State<K, P, V>) {
    && (forall p :: p in s.history ==> Chronological(s.history[p], s.now))
    && (forall pid :: pid in s.fills ==> ReadsOk(s, s.fills[pid].parts))
    && (forall k :: k in s.cache ==>
          && ReadsOk(s, s.cache[k].parts)
          && forall p :: p in s.cache[k].parts ==> s.cache[k].expiresAt <= s.cache[k].parts[p].at + delay + CACHE_TTL)
  }

  lemma CommitKeepsPast<V>(h: seq<Stamped<V>>, x: Stamped<V>, v: V, t: nat)
    requires CommittedAt(h, v, t) && t <= x.at
    ensures CommittedAt(h + [x], v, t)
  {
    var i :| 0 <= i < |h| && h[i].value == v && h[i].at <= t && (i + 1 < |h| ==> t <= h[i + 1].at);
    var h' := h + [x];
    assert h'[i] == h[i] && h'[i].at <= t && (i + 1 < |h'| ==> t <= h'[i + 1].at);
  }

  lemma ReadsStayOk<K(!new), P(!new), V(!new)>(s: State<K, P, V>, s': State<K, P, V>, part: P, x: Stamped<V>, parts: map<P, Stamped<V>>)
    requires s'.history == s.history[part := HistoryOf(s, part) + [x]] && s.now <= x.at && s.now <= s'.now
    requires ReadsOk(s, parts)
    ensures ReadsOk(s', parts)
  {
    forall p | p in parts
      ensures CommittedAt(HistoryOf(s', p), parts[p].value, parts[p].at)
    {
      if p == part {
        CommitKeepsPast(HistoryOf(s, p), x, parts[p].value, parts[p].at);
      }
    }
  }

  lemma CommitKeepsInv<K(!new), P(!new), V(!new)>(delay: nat, s: State<K, P, V>, p: P, v: V)
    requires Inv(delay, s)
    ensures Inv(delay, Apply(delay, s, Commit(p, v)))
  {
    var s' := Apply(delay, s, Commit(p, v));
    forall pid | pid in s'.fills
      ensures ReadsOk(s', s'.fills[pid].parts)
    {
      ReadsStayOk(s, s', p, Stamped(v, s.now), s.fills[pid].parts);
    }
    forall k | k in s'.cache
      ensures ReadsOk(s', s'.cache[k].parts)
    {
      ReadsStayOk(s, s', p, Stamped(v, s.now), s.cache[k].parts);
    }
  }

  lemma ApplyKeepsInv<K(!new), P(!new), V(!new)>(delay: nat, s: State<K, P, V>, step: Step<K, P, V>)
    requires Inv(delay, s) && Enabled(delay, s, step)
    ensures Inv(delay, Apply(delay, s, step))
  {
    var s' := Apply(delay, s, step);
    match step
    case Commit(p, v) => CommitKeepsInv(delay, s, p, v);
    case ReadPart(pid, p) =>
      assert CommittedAt(s.history[p], Current(s, p), s.now) by {
        assert s.history[p][|s.history[p]| - 1].value == Current(s, p);
      }
    case FinishFill(pid, applied) =>
      assert ReadsOk(s, s.fills[pid].parts);
    case _ =>
  }

  lemma {:induction false} RunKeepsInv<K(!new), P(!new), V(!new)>(delay: nat, s: State<K, P, V>, steps: seq<Step<K, P, V>>)
    requires Inv(delay, s) && IsRun(delay, s, steps)
    ensures Inv(delay, After(delay, s, steps))
    decreases |steps|
  {
    if steps != [] {
      ApplyKeepsInv(delay, s, steps[0]);
      RunKeepsInv(delay, Apply(delay, s, steps[0]), steps[1..]);
    }
  }

  ghost predicate Reachable<K(!new), P(!new), V(!new)>(delay: nat, s: State<K, P, V>) {
    exists init: State<K, P, V>, steps :: Initial(init) && IsRun(delay, init, steps) && After(delay, init, steps) == s
  }

  lemma ReachableInv<K(!new), P(!new), V(!new)>(delay: nat, s: State<K, P, V>)
    requires Reachable(delay, s)
    ensures Inv(delay, s)
  {
    var init: State<K, P, V>, steps :| Initial(init) && IsRun(delay, init, steps) && After(delay, init, steps) == s;
    RunKeepsInv(delay, init, steps);
  }

  /** Bounded staleness: every part of a hit was the committed value at some instant less than
      600 seconds plus the delay ago. */
  lemma BoundedStaleness<K(!new), P(!new), V(!new)>(delay: nat, s: State<K, P, V>, k: K, p: P)
    requires Reachable(delay, s) && Hit(s, k) && p in s.cache[k].parts
    ensures exists t: nat :: s.now < t + 600 * 1_000_000 + delay && t <= s.now
                             && CommittedAt(HistoryOf(s, p), s.cache[k].parts[p].value, t)
  {
    ReachableInv(delay, s);
    var t := s.cache[k].parts[p].at;
    assert s.now < t + CACHE_TTL + delay && CommittedAt(HistoryOf(s, p), s.cache[k].parts[p].value, t);
  }

  /** Once a part has not been written for CACHE_TTL + delay, every hit shows its current value. */
  lemma QuietPartsAreCurrent<K(!new), P(!new), V(!new)>(delay: nat, s: State<K, P, V>, k: K, p: P)
    requires Reachable(delay, s) && Hit(s, k) && p in s.cache[k].parts
    requires var h := HistoryOf(s, p); h != [] ==> h[|h| - 1].at + CACHE_TTL + delay <= s.now
    ensures p in s.history && s.history[p] != [] && s.cache[k].parts[p].value == Current(s, p)
  {
    ReachableInv(delay, s);
    var h, x := HistoryOf(s, p), s.cache[k].parts[p];
    var i :| 0 <= i < |h| && h[i].value == x.value && h[i].at <= x.at && (i + 1 < |h| ==> x.at <= h[i + 1].at);
    assert Chronological(h, s.now);
    assert s.now < x.at + CACHE_TTL + delay;
    assert i == |h| - 1;
  }

  /** What a miss returns was read within the request: each part was committed when it was read. */
  lemma MissReturnsCommittedParts<K(!new), P(!new), V(!new)>(delay: nat, s: State<K, P, V>, pid: int, p: P)
    requires Reachable(delay, s) && pid in s.fills && p in s.fills[pid].parts
    ensures s.fills[pid].parts[p].at <= s.now
    ensures CommittedAt(HistoryOf(s, p), s.fills[pid].parts[p].value, s.fills[pid].parts[p].at)
  {
    ReachableInv(delay, s);
  }

  // ---------------------------------------------------------------- after the last write

  /** A live entry that shows another value of the part than the committed one. */
  ghost predicate OldEntry<K(!new), P(!new), V(!new)>(s: State<K, P, V>, p: P, v: V, k: K) {
    Hit(s, k) && p in s.cache[k].parts && s.cache[k].parts[p].value != v
  }

  /** A request that read another value and can still set it. */
  ghost predicate OldFill<K(!new), P(!new), V(!new)>(delay: nat, s: State<K, P, V>, p: P, v: V, pid: int) {
    && pid in s.fills && p in s.fills[pid].parts && s.fills[pid].parts[p].value != v
    && forall q :: q in s.fills[pid].parts ==> s.now <= s.fills[pid].parts[q].at + delay
  }

  ghost predicate NoOldCopy<K(!new), P(!new), V(!new)>(delay: nat, s: State<K, P, V>, p: P, v: V) {
    (forall k :: !OldEntry(s, p, v, k)) && (forall pid :: !OldFill(delay, s, p, v, pid))
  }

  ghost predicate Holds<K(!new), P(!new), V(!new)>(s: State<K, P, V>, p: P, v: V) {
    p in s.history && s.history[p] != [] && Current(s, p) == v
  }

  ghost predicate NoCommitOf<K(!new), P(!new), V(!new)>(steps: seq<Step<K, P, V>>, p: P) {
    forall i :: 0 <= i < |steps| ==> !(steps[i].Commit? && steps[i].part == p)
  }

  /** Every hit shows this value of the part. */
  ghost predicate Shows<K(!new), P(!new), V(!new)>(s: State<K, P, V>, p: P, v: V) {
    forall k :: !OldEntry(s, p, v, k)
  }

  lemma StepKeepsNoOldCopy<K(!new), P(!new), V(!new)>(delay: nat, s: State<K, P, V>, step: Step<K, P, V>, p: P, v: V)
    requires Holds(s, p, v) && NoOldCopy(delay, s, p, v) && Enabled(delay, s, step) && !(step.Commit? && step.part == p)
    ensures Holds(Apply(delay, s, step), p, v) && NoOldCopy(delay, Apply(delay, s, step), p, v)
  {
    var s' := Apply(delay, s, step);
    forall k ensures !OldEntry(s', p, v, k) {
      assert !OldEntry(s, p, v, k);
      if step.FinishFill? {
        assert !OldFill(delay, s, p, v, step.pid);
      }
    }
    forall pid ensures !OldFill(delay, s', p, v, pid) {
      assert !OldFill(delay, s, p, v, pid);
      if pid in s'.fills && pid in s.fills {
        assert forall q :: q in s.fills[pid].parts ==> q in s'.fills[pid].parts || s'.fills[pid] == Fill(s'.fills[pid].key, map[]);
      }
    }
  }

  lemma {:induction false} RunKeepsNoOldCopy<K(!new), P(!new), V(!new)>(delay: nat, s: State<K, P, V>, steps: seq<Step<K, P, V>>, p: P, v: V)
    requires Holds(s, p, v) && NoOldCopy(delay, s, p, v) && IsRun(delay, s, steps) && NoCommitOf(steps, p)
    ensures NoOldCopy(delay, After(delay, s, steps), p, v)
    decreases |steps|
  {
    if steps != [] {
      StepKeepsNoOldCopy(delay, s, steps[0], p, v);
      RunKeepsNoOldCopy(delay, Apply(delay, s, steps[0]), steps[1..], p, v);
    }
  }

  /** Whatever happens next short of another write of the part: every hit on every continuation shows its current value
      if and only if no live entry, and no fill that can still be set, holds another one. */
  lemma AlwaysCurrentIffNoOldCopy<K(!new), P(!new), V(!new)>(delay: nat, s: State<K, P, V>, p: P, v: V)
    requires Holds(s, p, v)
    ensures NoOldCopy(delay, s, p, v)
            <==> forall steps: seq<Step<K, P, V>> :: IsRun(delay, s, steps) && NoCommitOf(steps, p) ==> Shows(After(delay, s, steps), p, v)
  {
    if NoOldCopy(delay, s, p, v) {
      forall steps: seq<Step<K, P, V>> | IsRun(delay, s, steps) && NoCommitOf(steps, p)
        ensures Shows(After(delay, s, steps), p, v)
      {
        RunKeepsNoOldCopy(delay, s, steps, p, v);
      }
    } else {
      OldCopyShows(delay, s, p, v);
    }
  }

  lemma OldCopyShows<K(!new), P(!new), V(!new)>(delay: nat, s: State<K, P, V>, p: P, v: V)
    requires !NoOldCopy(delay, s, p, v)
    ensures exists steps: seq<Step<K, P, V>> :: IsRun(delay, s, steps) && NoCommitOf(steps, p) && !Shows(After(delay, s, steps), p, v)
  {
    if k :| OldEntry(s, p, v, k) {
      var steps: seq<Step<K, P, V>> := [];
      assert IsRun(delay, s, steps) && NoCommitOf(steps, p) && !Shows(After(delay, s, steps), p, v);
    } else {
      var pid :| OldFill(delay, s, p, v, pid);
      var step: Step<K, P, V> := FinishFill(pid, true);
      var s' := Apply(delay, s, step);
      var steps := [step];
      assert steps[1..] == [] && IsRun(delay, s', steps[1..]);
      assert IsRun(delay, s, steps) && After(delay, s, steps) == s';
      assert OldEntry(s', p, v, s.fills[pid].key);
      assert NoCommitOf(steps, p) && !Shows(After(delay, s, steps), p, v);
    }
  }

  /** The services evict, then commit.  Evicting the part's only key after the commit would rule out every old entry and
      leave exactly the fills in flight. */
  lemma EvictAfterCommitLeavesFills<K(!new), P(!new), V(!new)>(delay: nat, s: State<K, P, V>, p: P, v: V, key: K)
    requires forall k :: k in s.cache && p in s.cache[k].parts ==> k == key
    ensures var s' := Apply(delay, Apply(delay, s, Commit(p, v)), Delete(key));
            && Holds(s', p, v)
            && (forall k :: !OldEntry(s', p, v, k))
            && (NoOldCopy(delay, s', p, v) <==> forall pid :: !OldFill(delay, s, p, v, pid))
  {
    var s' := Apply(delay, Apply(delay, s, Commit(p, v)), Delete(key));
    forall pid ensures OldFill(delay, s', p, v, pid) <==> OldFill(delay, s, p, v, pid) {
    }
  }

  /** In the order of the services the commit leaves old entries as well: those set between the eviction and it. */
  lemma EvictBeforeCommitLeavesEntries<K(!new), P(!new), V(!new)>(delay: nat, s: State<K, P, V>, p: P, v: V)
    ensures var s' := Apply(delay, s, Commit(p, v));
            && Holds(s', p, v)
            && (NoOldCopy(delay, s', p, v) <==> (forall k :: !OldEntry(s, p, v, k)) && (forall pid :: !OldFill(delay, s, p, v, pid)))
  {
    var s' := Apply(delay, s, Commit(p, v));
    forall k ensures OldEntry(s', p, v, k) <==> OldEntry(s, p, v, k) {
    }
    forall pid ensures OldFill(delay, s', p, v, pid) <==> OldFill(delay, s, p, v, pid) {
    }
  }

  // ---------------------------------------------------------------- concrete runs

  ghost predicate Next(delay: nat, s: State<int, int, int>, step: Step<int, int, int>, s': State<int, int, int>) {
    Enabled(delay, s, step) && Apply(delay, s, step) == s'
  }

  /** The states a list of steps goes through. */
  ghost predicate Through(delay: nat, states: seq<State<int, int, int>>, steps: seq<Step<int, int, int>>) {
    |states| == |steps| + 1
    && forall i :: 0 <= i < |steps| ==> Next(delay, states[i], steps[i], states[i + 1])
  }

  lemma {:induction false} ThroughIsRun(delay: nat, states: seq<State<int, int, int>>, steps: seq<Step<int, int, int>>)
    requires Through(delay, states, steps)
    ensures IsRun(delay, states[0], steps) && After(delay, states[0], steps) == states[|steps|]
    decreases |steps|
  {
    if steps != [] {
      ThroughIsRun(delay, states[1..], steps[1..]);
    }
  }

  function OneCompany(): State<int, int, int> {
    State(0, map[7 := [Stamped(1, 0)]], map[], map[])
  }

  /** A reader comes wholly between the eviction and the commit: no Redis command fails, and the old row stays cached. */
  lemma RefillBetweenEvictionAndCommit(delay: nat)
    ensures var steps: seq<Step<int, int, int>> := [Delete(7), StartFill(0, 7), ReadPart(0, 7), FinishFill(0, true), Commit(7, 2)];
            && Initial(OneCompany()) && IsRun(delay, OneCompany(), steps)
            && OldEntry(After(delay, OneCompany(), steps), 7, 2, 7)
  {
    var steps: seq<Step<int, int, int>> := [Delete(7), StartFill(0, 7), ReadPart(0, 7), FinishFill(0, true), Commit(7, 2)];
    var s0 := OneCompany();
    var s1 := Apply(delay, s0, steps[0]);
    var s2 := Apply(delay, s1, steps[1]);
    var s3 := Apply(delay, s2, steps[2]);
    assert s3.fills[0].parts[7] == Stamped(1, 0);
    var s4 := Apply(delay, s3, steps[3]);
    var s5 := Apply(delay, s4, steps[4]);
    ThroughIsRun(delay, [s0, s1, s2, s3, s4, s5], steps);
  }

  /** The update's eviction, the reader's miss and read, the update's commit, and a slow set. */
  function Race(delay: nat): seq<Step<int, int, int>> {
    [Delete(7), StartFill(0, 7), ReadPart(0, 7), Commit(7, 2), Advance(delay), FinishFill(0, true), Advance(CACHE_TTL - 1)]
  }

  /** The same with the eviction after the commit. */
  function RaceEvictingLast(delay: nat): seq<Step<int, int, int>> {
    [StartFill(0, 7), ReadPart(0, 7), Commit(7, 2), Delete(7), Advance(delay), FinishFill(0, true), Advance(CACHE_TTL - 1)]
  }

  /** The staleness bound is reached although every Redis command succeeds: CACHE_TTL + delay - 1 ticks after the commit the
      old value is still served, in the order of the services and, by a fill in flight, in the other order too. */
  lemma StalenessBoundIsReached(delay: nat, evictLast: bool)
    ensures var steps := if evictLast then RaceEvictingLast(delay) else Race(delay);
            && Initial(OneCompany()) && IsRun(delay, OneCompany(), steps)
            && var s := After(delay, OneCompany(), steps);
               s.now == CACHE_TTL + delay - 1 && HistoryOf(s, 7) == [Stamped(1, 0), Stamped(2, 0)] && OldEntry(s, 7, 2, 7)
  {
    var steps := if evictLast then RaceEvictingLast(delay) else Race(delay);
    var head := FastRead(delay, evictLast);
    var tail := SlowSet(delay, steps);
    var states := [OneCompany(), head[0], head[1], head[2], head[3], tail[0], tail[1], tail[2]];
    ThroughIsRun(delay, states, steps);
  }

  lemma FastRead(delay: nat, evictLast: bool) returns (head: seq<State<int, int, int>>)
    ensures |head| == 4 && head[3] == InFlight()
    ensures var steps := if evictLast then RaceEvictingLast(delay) else Race(delay);
            && Next(delay, OneCompany(), steps[0], head[0]) && Next(delay, head[0], steps[1], head[1])
            && Next(delay, head[1], steps[2], head[2]) && Next(delay, head[2], steps[3], head[3])
  {
    var history := InFlight().history;
    var read := OneCompany().(fills := map[0 := Fill(7, map[7 := Stamped(1, 0)])]);
    var missed := OneCompany().(fills := map[0 := Fill(7, map[])]);
    assert [Stamped(1, 0)] + [Stamped(2, 0)] == [Stamped(1, 0), Stamped(2, 0)];
    assert OneCompany().history[7 := [Stamped(1, 0), Stamped(2, 0)]] == history;
    assert Apply(delay, missed, ReadPart(0, 7)).fills == read.fills;
    head := if evictLast then [missed, read, read.(history := history), InFlight()]
            else [OneCompany(), missed, read, InFlight()];
  }

  /** The write is committed, nothing is cached, and the reader holds the old row. */
  function InFlight(): State<int, int, int> {
    State(0, map[7 := [Stamped(1, 0), Stamped(2, 0)]], map[], map[0 := Fill(7, map[7 := Stamped(1, 0)])])
  }

  lemma SlowSet(delay: nat, steps: seq<Step<int, int, int>>) returns (tail: seq<State<int, int, int>>)
    requires |steps| == 7 && steps[4..] == [Advance(delay), FinishFill(0, true), Advance(CACHE_TTL - 1)]
    ensures |tail| == 3
    ensures Next(delay, InFlight(), steps[4], tail[0]) && Next(delay, tail[0], steps[5], tail[1]) && Next(delay, tail[1], steps[6], tail[2])
    ensures tail[2].now == CACHE_TTL + delay - 1 && tail[2].history == InFlight().history && OldEntry(tail[2], 7, 2, 7)
  {
    assert steps[4] == steps[4..][0] && steps[5] == steps[4..][1] && steps[6] == steps[4..][2];
    var s5 := Apply(delay, InFlight(), steps[4]);
    var s6 := Apply(delay, s5, steps[5]);
    tail := [s5, s6, Apply(delay, s6, steps[6])];
  }
}
