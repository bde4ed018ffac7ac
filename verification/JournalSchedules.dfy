/** Automatic journal mails: the next run and the update of app/services/journal_schedule.py, for requests that have
    passed the patterns and bounds of app/schemas/journal_schedule.py. */
module JournalSchedules {
  import opened Prelude
  import opened Tenant

  // ---------------------------------------------------------------- 'HH:MM'

  /** What counts as a decimal digit, and its value: `\d` and `int()` both go beyond ASCII. */
  ghost predicate IsDigitTable(digit: char -> Option<nat>) {
    && (forall c :: '0' <= c <= '9' ==> digit(c) == Some((c - '0') as nat))
    && (forall c :: digit(c).Some? ==> digit(c).value < 10)
    && digit(':').None?
  }

  /** `^([01]\d|2[0-3]):[0-5]\d$` */
  predicate MatchesTimePattern(digit: char -> Option<nat>, s: string) {
    && |s| == 5
    && (((s[0] == '0' || s[0] == '1') && digit(s[1]).Some?) || (s[0] == '2' && '0' <= s[1] <= '3'))
    && s[2] == ':' && '0' <= s[3] <= '5' && digit(s[4]).Some?
  }

  /** `s.split(":", 1)`: the parts around the first colon; without a colon there is nothing to unpack. */
  function SplitOnce(s: string): Option<(string, string)> {
    if s == "" then None
    else if s[0] == ':' then Some(("", s[1..]))
    else match SplitOnce(s[1..])
      case None => None
      case Some((h, m)) => Some(([s[0]] + h, m))
  }

  /** `int(s)` on strings of digits. */
  function ParseInt(digit: char -> Option<nat>, s: string): Option<nat> {
    if s == "" || digit(s[|s| - 1]).None? then None
    else if |s| == 1 then digit(s[0])
    else match ParseInt(digit, s[..|s| - 1])
      case None => None
      case Some(n) => Some(10 * n + digit(s[|s| - 1]).value)
  }

  /** None stands for the ValueError that the 09:00 fallback catches. */
  function ParseTime(digit: char -> Option<nat>, s: string): Option<(nat, nat)> {
    match SplitOnce(s)
    case None => None
    case Some((h, m)) =>
      if ParseInt(digit, h).Some? && ParseInt(digit, m).Some?
      then Some((ParseInt(digit, h).value, ParseInt(digit, m).value)) else None
  }

  /** `datetime.replace` raises (None) unless hour and minute are in range. */
  function ComputeNextRun(digit: char -> Option<nat>, time: string, now: nat): Option<int> {
    var (h, m) := ParseTime(digit, time).GetOr((9, 0));
    if h >= 24 || m >= 60 then None
    else
      var next := (now / DAY) * DAY + TimeOfDay(h, m);
      Some(if next < now then next + DAY else next)
  }

  function TimeOfDay(h: nat, m: nat): int {
    (h * 60 + m) * 60 * SECOND
  }

  /** A day starting at a multiple of DAY, that many hours and minutes in, to the microsecond. */
  predicate IsAt(t: int, h: nat, m: nat) {
    t % DAY == TimeOfDay(h, m)
  }

  /** The hour and minute a matching string denotes. */
  function Denoted(digit: char -> Option<nat>, s: string): (nat, nat)
    requires IsDigitTable(digit) && MatchesTimePattern(digit, s)
  {
    (10 * (s[0] - '0') as nat + digit(s[1]).value, 10 * (s[3] - '0') as nat + digit(s[4]).value)
  }

  lemma TwoDigits(digit: char -> Option<nat>, s: string)
    requires |s| == 2 && digit(s[0]).Some? && digit(s[1]).Some?
    ensures ParseInt(digit, s) == Some(10 * digit(s[0]).value + digit(s[1]).value)
  {
    assert s[..1] == [s[0]];
  }

  /** Parsing never takes the fallback on a string the request pattern accepts, and reads what it denotes. */
  lemma AcceptedTimesParse(digit: char -> Option<nat>, s: string)
    requires IsDigitTable(digit) && MatchesTimePattern(digit, s)
    ensures ParseTime(digit, s) == Some(Denoted(digit, s))
    ensures Denoted(digit, s).0 < 24 && Denoted(digit, s).1 < 60
  {
    var t, u := s[1..], s[2..];
    assert t[1..] == u && u[1..] == s[3..];
    assert s[0] != ':' && t[0] != ':' && u[0] == ':';
    assert SplitOnce(u) == Some(("", s[3..]));
    assert [t[0]] + "" == [s[1]];
    assert SplitOnce(t) == Some(([s[1]], s[3..]));
    assert [s[0]] + [s[1]] == [s[0], s[1]];
    TwoDigits(digit, [s[0], s[1]]);
    TwoDigits(digit, s[3..]);
  }

  /** The next run is the least instant not before now with the denoted hour and minute and no seconds, and it is
      less than a day away. */
  lemma NextRunIsTheLeast(digit: char -> Option<nat>, s: string, now: nat, other: int)
    requires IsDigitTable(digit) && MatchesTimePattern(digit, s)
    ensures var (h, m) := Denoted(digit, s);
            var r := ComputeNextRun(digit, s, now);
            && r.Some? && now <= r.value < now + DAY && IsAt(r.value, h, m)
            && (now <= other && IsAt(other, h, m) ==> r.value <= other)
  {
    AcceptedTimesParse(digit, s);
    var (h, m) := Denoted(digit, s);
    var r := ComputeNextRun(digit, s, now).value;
    LeastAtTime(now, TimeOfDay(h, m), r, other);
  }

  lemma LeastAtTime(now: nat, offset: int, r: int, other: int)
    requires 0 <= offset < DAY
    requires r == var next := (now / DAY) * DAY + offset; if next < now then next + DAY else next
    ensures now <= r < now + DAY && r % DAY == offset
    ensures now <= other && other % DAY == offset ==> r <= other
  {
    var d, x := now / DAY, now % DAY;
    assert now == d * DAY + x;
    if now <= other && other % DAY == offset {
      var o := other / DAY;
      assert other == o * DAY + offset;
      assert x <= offset ==> d <= o;
      assert offset < x ==> d + 1 <= o;
    }
  }

  // ---------------------------------------------------------------- rows and requests

  datatype Frequency = DAILY | WEEKLY | MONTHLY
  datatype Weekday = SUN | MON | TUE | WED | THU | FRI | SAT
  datatype Format = PDF | HWP | XLSX

  datatype Row = Row(
    companyId: int, recipient: string, frequency: Frequency, weekday: Option<Weekday>, dayOfMonth: Option<int>,
    sendTime: string, format: Format, enabled: bool, nextRunAt: Option<int>)

  datatype CreateRequest = CreateRequest(
    companyId: int, recipient: string, frequency: Frequency, weekday: Option<Weekday>, dayOfMonth: Option<int>,
    time: string, format: Format, enabled: bool)

  datatype UpdateRequest = UpdateRequest(
    companyId: Option<int>, recipient: Option<string>, frequency: Option<Frequency>, weekday: Option<Weekday>,
    dayOfMonth: Option<int>, time: Option<string>, format: Option<Format>, enabled: Option<bool>)

  predicate ValidDay(day: Option<int>) {
    day.Some? ==> 1 <= day.value <= 28
  }

  /** The truth of an optional integer: None and 0 are false. */
  predicate Given(a: Option<int>) {
    a.Some? && a.value != 0
  }

  /** `a or b` */
  function Or(a: Option<int>, b: Option<int>): Option<int> {
    if Given(a) then a else b
  }

  function CreatedRow(digit: char -> Option<nat>, req: CreateRequest, now: nat): Row {
    Row(req.companyId, req.recipient, req.frequency, req.weekday, req.dayOfMonth, req.time, req.format, req.enabled,
        ComputeNextRun(digit, req.time, now))
  }

  /** The fields an accepted update leaves behind. */
  function UpdatedRow(digit: char -> Option<nat>, row: Row, req: UpdateRequest, now: nat): Row {
    var (weekday, dayOfMonth) :=
      match req.frequency
      case None => (row.weekday, row.dayOfMonth)
      case Some(DAILY) => (None, None)
      case Some(WEEKLY) => (Some((if req.weekday.Some? then req.weekday else row.weekday).GetOr(MON)), None)
      case Some(MONTHLY) => (None, Or(Or(req.dayOfMonth, row.dayOfMonth), Some(1)));
    Row(req.companyId.GetOr(row.companyId),
        if req.recipient.Some? && req.recipient.value != "" then req.recipient.value else row.recipient,
        req.frequency.GetOr(row.frequency), weekday, dayOfMonth,
        if req.time.Some? && req.time.value != "" then req.time.value else row.sendTime,
        req.format.GetOr(row.format), req.enabled.GetOr(row.enabled),
        if req.time.Some? && req.time.value != "" then ComputeNextRun(digit, req.time.value, now) else row.nextRunAt)
  }

  /** Which check stops an update, if any. */
  function UpdateProblem(rows: map<int, Row>, companies: set<int>, id: int, req: UpdateRequest, scope: Scope): Option<Problem> {
    if id !in rows then Some(NotFound)
    else if !InScope(scope, rows[id].companyId) then Some(Forbidden)
    else if req.companyId.Some? && req.companyId.value != rows[id].companyId then
      if !InScope(scope, req.companyId.value) then Some(Forbidden)
      else if req.companyId.value !in companies then Some(CompanyNotFound)
      else None
    else None
  }

  /** What the session holds after an update that met a problem: `enabled` is assigned before the target company is
      checked. */
  function HalfEdited(rows: map<int, Row>, id: int, req: UpdateRequest, scope: Scope): map<int, Row> {
    if id in rows && InScope(scope, rows[id].companyId) && req.enabled.Some?
    then rows[id := rows[id].(enabled := req.enabled.value)] else rows
  }

  predicate MayDelete(rows: map<int, Row>, id: int, scope: Scope) {
    id in rows ==> InScope(scope, rows[id].companyId)
  }

  /** The email-schedule endpoints of app/api/v1/work_journals.py that write. */
  datatype Request =
    | Create(schedule: CreateRequest)
    | Update(id: int, update: UpdateRequest)
    | Delete(id: int)

  function Handle(digit: char -> Option<nat>, rows: map<int, Row>, nextId: int, companies: set<int>, scope: Scope, req: Request,
                  now: nat): Handled<Row>
  {
    match req
    case Create(r) =>
      if !InScope(scope, r.companyId) || r.companyId !in companies then Handled(rows, nextId, false)
      else Handled(rows[nextId := CreatedRow(digit, r, now)], nextId + 1, true)
    case Update(id, r) =>
      if UpdateProblem(rows, companies, id, r, scope).Some? then Handled(HalfEdited(rows, id, r, scope), nextId, false)
      else Handled(rows[id := UpdatedRow(digit, rows[id], r, now)], nextId, true)
    case Delete(id) =>
      if MayDelete(rows, id, scope) then Handled(rows - {id}, nextId, true) else Handled(rows, nextId, false)
  }

  class JournalScheduleService {
    const companies: set<int>
    const digit: char -> Option<nat>
    var committed: map<int, Row>
    var working: map<int, Row>   // the request's session
    var nextId: int

    constructor (companies: set<int>, digit: char -> Option<nat>, rows: map<int, Row>, nextId: int)
      ensures this.companies == companies && this.digit == digit
      ensures committed == working == rows && this.nextId == nextId
    {
      this.companies, this.digit, committed, working, this.nextId := companies, digit, rows, rows, nextId;
    }

    /** get_db_session: commit after a normal return, roll back after an exception. */
    method EndRequest(ok: bool)
      modifies this`committed, this`working
      ensures committed == working == if ok then old(working) else old(committed)
    {
      if ok {
        committed := working;
      } else {
        working := committed;
      }
    }

    method Create(req: CreateRequest, now: nat) returns (r: Result<int, Problem>)
      modifies this`working, this`nextId
      ensures if req.companyId in companies
              then r == Ok(old(nextId)) && working == old(working)[old(nextId) := CreatedRow(digit, req, now)] && nextId == old(nextId) + 1
              else r == Err(CompanyNotFound) && working == old(working) && nextId == old(nextId)
    {
      if req.companyId !in companies {
        return Err(CompanyNotFound);
      }
      var row := Row(req.companyId, req.recipient, req.frequency, req.weekday, req.dayOfMonth, req.time, req.format,
                     req.enabled, ComputeNextRun(digit, req.time, now));
      working := working[nextId := row];
      nextId := nextId + 1;
      r := Ok(nextId - 1);
    }

    /** The endpoints: creation asserts the company, the others leave it to the service. */
    method Serve(scope: Scope, req: Request, now: nat) returns (ok: bool)
      modifies this`working, this`nextId
      ensures Handled(working, nextId, ok) == Handle(digit, old(working), old(nextId), companies, scope, req, now)
    {
      match req {
        case Create(schedule) =>
          if !InScope(scope, schedule.companyId) {
            return false;
          }
          var created := Create(schedule, now);
          ok := created.Ok?;
        case Update(id, update) =>
          var updated := Update(id, update, scope, now);
          ok := updated.Ok?;
        case Delete(id) =>
          var deleted := Delete(id, scope);
          ok := deleted.Ok?;
      }
    }

    /** The row is edited field by field in the session; a check that fails midway leaves a half-edited working copy. */
    method Update(id: int, req: UpdateRequest, scope: Scope, now: nat) returns (r: Result<Row, Problem>)
      modifies this`working
      ensures match UpdateProblem(old(working), companies, id, req, scope)
              case Some(p) => r == Err(p) && working == HalfEdited(old(working), id, req, scope)
              case None => r == Ok(UpdatedRow(digit, old(working)[id], req, now)) && working == old(working)[id := r.value]
    {
      if id !in working {
        return Err(NotFound);
      }
      var s := working[id];
      if !InScope(scope, s.companyId) {
        return Err(Forbidden);
      }
      if req.enabled.Some? {
        s := s.(enabled := req.enabled.value);
        working := working[id := s];
      }
      if req.companyId.Some? && req.companyId.value != s.companyId {
        if !InScope(scope, req.companyId.value) {
          return Err(Forbidden);
        }
        if req.companyId.value !in companies {
          return Err(CompanyNotFound);
        }
        s := s.(companyId := req.companyId.value);
      }
      s := AssignContents(digit, s, req, now);
      working := working[id := s];
      r := Ok(s);
    }

    method Delete(id: int, scope: Scope) returns (r: Result<(), Problem>)
      modifies this`working
      ensures r == if MayDelete(old(working), id, scope) then Ok(()) else Err(Forbidden)
      ensures working == if r.Ok? then old(working) - {id} else old(working)
    {
      if id in working {
        if !InScope(scope, working[id].companyId) {
          return Err(Forbidden);
        }
        working := working - {id};
      }
      r := Ok(());
    }
  }

  /** The assignments that follow the checks. */
  method AssignContents(digit: char -> Option<nat>, row: Row, req: UpdateRequest, now: nat) returns (s: Row)
    ensures s == UpdatedRow(digit, row, req.(companyId := None, enabled := None), now)
  {
    s := row;
    if req.recipient.Some? && req.recipient.value != "" {
      s := s.(recipient := req.recipient.value);
    }
    s := AssignFrequency(s, req);
    if req.time.Some? && req.time.value != "" {
      s := s.(sendTime := req.time.value);
      s := s.(nextRunAt := ComputeNextRun(digit, req.time.value, now));
    }
    if req.format.Some? {
      s := s.(format := req.format.value);
    }
  }

  /** The frequency branch of the update: touches three fields, leaves exactly the one the frequency needs, filled
      from the request, else from the row, else with the default, and makes any row consistent. */
  method AssignFrequency(row: Row, req: UpdateRequest) returns (s: Row)
    ensures s.(frequency := row.frequency, weekday := row.weekday, dayOfMonth := row.dayOfMonth) == row
    ensures req.frequency.None? ==> s == row
    ensures req.frequency.Some? ==>
              && s.frequency == req.frequency.value
              && (s.weekday.Some? <==> s.frequency == WEEKLY) && (s.dayOfMonth.Some? <==> s.frequency == MONTHLY)
    ensures req.frequency.Some? && s.weekday.Some? ==>
              if req.weekday.Some? then s.weekday == req.weekday
              else if row.weekday.Some? then s.weekday == row.weekday else s.weekday == Some(MON)
    ensures req.frequency.Some? && s.dayOfMonth.Some? ==>
              if Given(req.dayOfMonth) then s.dayOfMonth == req.dayOfMonth
              else if Given(row.dayOfMonth) then s.dayOfMonth == row.dayOfMonth else s.dayOfMonth == Some(1)
    ensures req.frequency.Some? && Accepted(req) && ValidDay(row.dayOfMonth) ==> RowConsistent(s)
  {
    s := row;
    if req.frequency.Some? {
      s := s.(frequency := req.frequency.value);
      if s.frequency == DAILY {
        s := s.(weekday := None, dayOfMonth := None);
      } else if s.frequency == WEEKLY {
        s := s.(weekday := Some((if req.weekday.Some? then req.weekday else s.weekday).GetOr(MON)));
        s := s.(dayOfMonth := None);
      } else {
        s := s.(dayOfMonth := Or(Or(req.dayOfMonth, s.dayOfMonth), Some(1)));
        s := s.(weekday := None);
      }
    }
  }

  // ---------------------------------------------------------------- frequency and its fields

  /** Weekday and day of month say what the frequency needs and nothing else. */
  ghost predicate Consistent(frequency: Frequency, weekday: Option<Weekday>, dayOfMonth: Option<int>) {
    match frequency
    case DAILY => weekday.None? && dayOfMonth.None?
    case WEEKLY => weekday.Some? && dayOfMonth.None?
    case MONTHLY => weekday.None? && dayOfMonth.Some? && 1 <= dayOfMonth.value <= 28
  }

  ghost predicate RowConsistent(row: Row) {
    Consistent(row.frequency, row.weekday, row.dayOfMonth)
  }

  /** The bounds the request schema puts on an update. */
  ghost predicate Accepted(req: UpdateRequest) {
    ValidDay(req.dayOfMonth)
  }

  /** An accepted update that names a frequency makes the row consistent whatever it was; one that does not name one
      leaves consistency as it was. */
  lemma UpdateConsistency(digit: char -> Option<nat>, row: Row, req: UpdateRequest, now: nat)
    requires Accepted(req) && ValidDay(row.dayOfMonth)
    ensures var row' := UpdatedRow(digit, row, req, now);
            && ValidDay(row'.dayOfMonth)
            && (RowConsistent(row') <==> req.frequency.Some? || RowConsistent(row))
  {
  }

  function Updated(digit: char -> Option<nat>, row: Row, reqs: seq<(UpdateRequest, nat)>): Row
    decreases |reqs|
  {
    if reqs == [] then row else Updated(digit, UpdatedRow(digit, row, reqs[0].0, reqs[0].1), reqs[1..])
  }

  /** After any series of accepted updates the row is consistent exactly when it was created so or some update named
      a frequency; days stay within 1..28. */
  lemma {:induction false} ConsistentOnceAFrequencyIsSent(digit: char -> Option<nat>, row: Row, reqs: seq<(UpdateRequest, nat)>)
    requires ValidDay(row.dayOfMonth) && forall i :: 0 <= i < |reqs| ==> Accepted(reqs[i].0)
    ensures ValidDay(Updated(digit, row, reqs).dayOfMonth)
    ensures RowConsistent(Updated(digit, row, reqs)) <==>
            RowConsistent(row) || exists i :: 0 <= i < |reqs| && reqs[i].0.frequency.Some?
    decreases |reqs|
  {
    if reqs != [] {
      UpdateConsistency(digit, row, reqs[0].0, reqs[0].1);
      ConsistentOnceAFrequencyIsSent(digit, UpdatedRow(digit, row, reqs[0].0, reqs[0].1), reqs[1..]);
      if i :| 0 <= i < |reqs| && reqs[i].0.frequency.Some? {
        if 0 < i {
          assert reqs[1..][i - 1].0.frequency.Some?;
        }
      }
    }
  }

  /** Creation does not normalise: a weekly schedule without weekday is stored as sent. */
  lemma CreateCanBeInconsistent(digit: char -> Option<nat>, req: CreateRequest, now: nat)
    ensures RowConsistent(CreatedRow(digit, req, now)) <==> Consistent(req.frequency, req.weekday, req.dayOfMonth)
    ensures req.frequency == WEEKLY && req.weekday.None? ==> !RowConsistent(CreatedRow(digit, req, now))
  {
  }

  // ---------------------------------------------------------------- what create and update store

  /** Creation stores what was sent, with the next run at the time sent. */
  lemma CreateMeans(digit: char -> Option<nat>, req: CreateRequest, now: nat, other: int)
    requires IsDigitTable(digit) && MatchesTimePattern(digit, req.time)
    ensures var row := CreatedRow(digit, req, now);
            && row.companyId == req.companyId && row.recipient == req.recipient && row.frequency == req.frequency
            && row.weekday == req.weekday && row.dayOfMonth == req.dayOfMonth && row.sendTime == req.time
            && row.format == req.format && row.enabled == req.enabled
            && LeastAt(digit, req.time, now, row.nextRunAt, other)
  {
    NextRunIsTheLeast(digit, req.time, now, other);
  }

  /** The instant is the least from `now` on (no `other` one is earlier) at the time the string denotes. */
  ghost predicate LeastAt(digit: char -> Option<nat>, time: string, now: nat, at: Option<int>, other: int)
    requires IsDigitTable(digit) && MatchesTimePattern(digit, time)
  {
    var (h, m) := Denoted(digit, time);
    && at.Some? && now <= at.value < now + DAY && IsAt(at.value, h, m)
    && (now <= other && IsAt(other, h, m) ==> at.value <= other)
  }

  /** An update stores every field sent in its own column and keeps the others; a time sent moves the next run to the
      least instant at that time, and without one it stays. */
  lemma UpdateMeans(digit: char -> Option<nat>, row: Row, req: UpdateRequest, now: nat, other: int)
    requires IsDigitTable(digit) && (req.time.Some? ==> MatchesTimePattern(digit, req.time.value))
    requires req.recipient.Some? ==> req.recipient.value != ""
    ensures var row' := UpdatedRow(digit, row, req, now);
            && SentOrKept(req.companyId, row.companyId, row'.companyId) && SentOrKept(req.recipient, row.recipient, row'.recipient)
            && SentOrKept(req.frequency, row.frequency, row'.frequency) && SentOrKept(req.format, row.format, row'.format)
            && SentOrKept(req.enabled, row.enabled, row'.enabled) && SentOrKept(req.time, row.sendTime, row'.sendTime)
            && (req.frequency.None? ==> row'.weekday == row.weekday && row'.dayOfMonth == row.dayOfMonth)
            && (req.frequency == Some(DAILY) ==> row'.weekday.None? && row'.dayOfMonth.None?)
            && (req.frequency == Some(WEEKLY) ==>
                  row'.dayOfMonth.None? && row'.weekday == (if req.weekday.Some? then req.weekday
                                                            else if row.weekday.Some? then row.weekday else Some(MON)))
            && (req.frequency == Some(MONTHLY) && Accepted(req) && ValidDay(row.dayOfMonth) ==>
                  row'.weekday.None? && row'.dayOfMonth == (if req.dayOfMonth.Some? then req.dayOfMonth
                                                            else if row.dayOfMonth.Some? then row.dayOfMonth else Some(1)))
            && (req.time.None? ==> row'.nextRunAt == row.nextRunAt)
            && (req.time.Some? ==> LeastAt(digit, req.time.value, now, row'.nextRunAt, other))
  {
    if req.time.Some? {
      NextRunIsTheLeast(digit, req.time.value, now, other);
    }
  }

  /** The next run is at the send time. */
  ghost predicate Timed(digit: char -> Option<nat>, row: Row)
    requires IsDigitTable(digit)
  {
    MatchesTimePattern(digit, row.sendTime)
    && row.nextRunAt.Some? && var (h, m) := Denoted(digit, row.sendTime); IsAt(row.nextRunAt.value, h, m)
  }

  ghost predicate Patterned(digit: char -> Option<nat>, req: UpdateRequest)
    requires IsDigitTable(digit)
  {
    req.time.Some? ==> MatchesTimePattern(digit, req.time.value)
  }

  /** Over any series of accepted updates the next run stays at the send time the row shows. */
  lemma {:induction false} NextRunStaysAtTheSendTime(digit: char -> Option<nat>, row: Row, reqs: seq<(UpdateRequest, nat)>)
    requires IsDigitTable(digit) && Timed(digit, row) && forall i :: 0 <= i < |reqs| ==> Patterned(digit, reqs[i].0)
    ensures Timed(digit, Updated(digit, row, reqs))
    decreases |reqs|
  {
    if reqs != [] {
      var (req, now) := reqs[0];
      assert Patterned(digit, reqs[0].0);
      if req.time.Some? {
        NextRunIsTheLeast(digit, req.time.value, now, 0);
      }
      NextRunStaysAtTheSendTime(digit, UpdatedRow(digit, row, req, now), reqs[1..]);
    }
  }

  /** What each writing endpoint does: when it is refused, which row it stores, and that a refusal leaves at most the
      `enabled` flag of the row asked for edited in the session. */
  lemma HandleMeans(digit: char -> Option<nat>, rows: map<int, Row>, nextId: int, companies: set<int>, scope: Scope, req: Request, now: nat)
    requires nextId !in rows
    ensures var h := Handle(digit, rows, nextId, companies, scope, req, now);
            match req
            case Create(r) =>
              && (h.ok <==> (scope.None? || scope.value == r.companyId) && r.companyId in companies)
              && (h.ok ==> h.rows == rows[nextId := CreatedRow(digit, r, now)] && h.nextId == nextId + 1)
              && (!h.ok ==> h.rows == rows && h.nextId == nextId)
            case Update(id, r) =>
              && h.nextId == nextId && h.rows.Keys == rows.Keys
              && (forall other :: other in rows && other != id ==> h.rows[other] == rows[other])
              && (h.ok <==> && id in rows && (scope.None? || scope.value == rows[id].companyId)
                            && (r.companyId.Some? && r.companyId.value != rows[id].companyId ==>
                                  (scope.None? || scope.value == r.companyId.value) && r.companyId.value in companies))
              && (h.ok ==> h.rows[id] == UpdatedRow(digit, rows[id], r, now))
              && (!h.ok && id in rows ==> h.rows[id].(enabled := rows[id].enabled) == rows[id])
            case Delete(id) =>
              && h.nextId == nextId && (h.ok <==> id !in rows || scope.None? || scope.value == rows[id].companyId)
              && h.rows == (if h.ok then rows - {id} else rows)
  {
  }

  function Digit(n: nat): char
    requires n < 10
  {
    '0' + n as char
  }

  /** The pattern leaves out no time of day: every hour and minute has its string, and the string denotes them. */
  lemma EveryTimeIsAccepted(digit: char -> Option<nat>, h: nat, m: nat)
    requires IsDigitTable(digit) && h < 24 && m < 60
    ensures var s := [Digit(h / 10), Digit(h % 10), ':', Digit(m / 10), Digit(m % 10)];
            MatchesTimePattern(digit, s) && Denoted(digit, s) == (h, m)
  {
    var s := [Digit(h / 10), Digit(h % 10), ':', Digit(m / 10), Digit(m % 10)];
    assert '0' <= s[0] <= '2' && '0' <= s[1] <= '9' && '0' <= s[3] <= '5' && '0' <= s[4] <= '9';
    assert digit(s[1]) == Some(h % 10) && digit(s[4]) == Some(m % 10);
  }

  /** Being at a time of day means that many hours and minutes, and no second, after some midnight. */
  lemma IsAtMeans(t: int, h: nat, m: nat)
    requires h < 24 && m < 60
    ensures IsAt(t, h, m) <==> exists d: int :: t == Midnight(d) + h * 3_600_000_000 + m * 60_000_000
  {
    var d := t / DAY;
    if IsAt(t, h, m) {
      assert t == Midnight(d) + h * 3_600_000_000 + m * 60_000_000;
    }
    if k: int :| t == Midnight(k) + h * 3_600_000_000 + m * 60_000_000 {
      assert k == d;
    }
  }

  function Midnight(d: int): int {
    d * 86_400_000_000
  }
}
