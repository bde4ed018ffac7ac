/** Which work journals a bulk mail attaches, and that the preview announces exactly those:
    WorkJournalBulkEmailService.send and preview (app/services/document.py:291-433). */
module BulkMail {
  import opened Prelude
  import opened Relational

  const MAX_BULK_SCHEDULES: nat := 300

  datatype ScheduleRow = ScheduleRow(id: int, jobWorkerId: int, standardId: int, startAt: int)
  datatype JobWorkerRow = JobWorkerRow(id: int, companyWorkerId: int)
  datatype CompanyWorkerRow = CompanyWorkerRow(id: int, companyId: int, workerId: int)
  datatype WorkerRow = WorkerRow(id: int, userId: int)
  datatype NamedRow = NamedRow(id: int, name: string)   // users and job standards

  /** The tables, each scanned in some order. */
  datatype Tables = Tables(
    schedules: seq<ScheduleRow>, jobWorkers: seq<JobWorkerRow>, companyWorkers: seq<CompanyWorkerRow>,
    workers: seq<WorkerRow>, users: seq<NamedRow>, standards: seq<NamedRow>)

  // ---------------------------------------------------------------- the queries

  type Scheduled = ((ScheduleRow, JobWorkerRow), CompanyWorkerRow)
  type Named = (((Scheduled, WorkerRow), NamedRow), NamedRow)

  /** schedule JOIN job worker JOIN company worker */
  function SendJoin(t: Tables): seq<Scheduled> {
    Join(Join(t.schedules, t.jobWorkers, (s: ScheduleRow, jw: JobWorkerRow) => jw.id == s.jobWorkerId),
         t.companyWorkers, (x: (ScheduleRow, JobWorkerRow), cw: CompanyWorkerRow) => cw.id == x.1.companyWorkerId)
  }

  const OnWorker := (x: Scheduled, w: WorkerRow) => w.id == x.1.workerId
  const OnUser := (x: (Scheduled, WorkerRow), u: NamedRow) => u.id == x.1.userId
  const OnStandard := (x: ((Scheduled, WorkerRow), NamedRow), std: NamedRow) => std.id == x.0.0.0.0.standardId

  /** ... JOIN challenged worker JOIN user JOIN job standard */
  function PreviewJoin(t: Tables): seq<Named> {
    Join(Join(Join(SendJoin(t), t.workers, OnWorker), t.users, OnUser), t.standards, OnStandard)
  }

  /** From 00:00:00.000000 to 23:59:59.999999 of the day, both inclusive. */
  predicate InDay(startAt: int, day: int) {
    day * DAY <= startAt <= day * DAY + (DAY - 1)
  }

  predicate Wanted(x: Scheduled, company: int, day: int) {
    x.1.companyId == company && InDay(x.0.0.startAt, day)
  }

  function SendRows(t: Tables, company: int, day: int): seq<ScheduleRow> {
    Map(Filter(SendJoin(t), (x: Scheduled) => Wanted(x, company, day)), (x: Scheduled) => x.0.0)
  }

  function PreviewRows(t: Tables, company: int, day: int): seq<ScheduleRow> {
    Map(Filter(PreviewJoin(t), (x: Named) => Wanted(x.0.0.0, company, day)), (x: Named) => x.0.0.0.0.0)
  }

  // ---------------------------------------------------------------- which schedules are selected

  /** A schedule of one of the company's workers that starts on the day. */
  predicate IsOfCompanyAndDay(t: Tables, company: int, day: int, s: ScheduleRow) {
    && day * DAY <= s.startAt < (day + 1) * DAY
    && exists jw, cw :: jw in t.jobWorkers && jw.id == s.jobWorkerId
                        && cw in t.companyWorkers && cw.id == jw.companyWorkerId && cw.companyId == company
  }

  /** The primary keys on the way from a schedule to its company. */
  ghost predicate KeysUnique(t: Tables) {
    && (forall i, j :: 0 <= i < j < |t.jobWorkers| ==> t.jobWorkers[i].id != t.jobWorkers[j].id)
    && (forall i, j :: 0 <= i < j < |t.companyWorkers| ==> t.companyWorkers[i].id != t.companyWorkers[j].id)
  }

  lemma {:induction false} JoinAppend<A, B>(a: seq<A>, b: seq<A>, right: seq<B>, on: (A, B) -> bool)
    ensures Join(a + b, right, on) == Join(a, right, on) + Join(b, right, on)
  {
    if a == [] {
      assert a + b == b;
    } else {
      assert (a + b)[0] == a[0] && (a + b)[1..] == a[1..] + b;
      JoinAppend(a[1..], b, right, on);
      assert Matches(a[0], right, on) + (Join(a[1..], right, on) + Join(b, right, on))
          == (Matches(a[0], right, on) + Join(a[1..], right, on)) + Join(b, right, on);
    }
  }

  /** One left row joins nothing, or over a unique key the one row it refers to. */
  lemma JoinOne<A, B>(a: A, right: seq<B>, on: (A, B) -> bool)
    requires forall i, j :: 0 <= i < j < |right| ==> !(on(a, right[i]) && on(a, right[j]))
    ensures (forall b :: b in right ==> !on(a, b)) ==> Join([a], right, on) == []
    ensures forall b :: b in right && on(a, b) ==> Join([a], right, on) == [(a, b)]
  {
    assert [a][1..] == [] && Join([a], right, on) == Matches(a, right, on) + [];
    assert Join([a], right, on) == Matches(a, right, on);
    if forall b :: b in right ==> !on(a, b) {
      FilterNone(right, (b: B) => on(a, b));
    }
    forall b | b in right && on(a, b)
      ensures Join([a], right, on) == [(a, b)]
    {
      var j: nat :| j < |right| && right[j] == b;
      assert OnlyMatch(a, right, on, j);
      OnlyMatchFilters(a, right, on, j);
    }
  }

  function SelectOf(joined: seq<Scheduled>, company: int, day: int): seq<ScheduleRow> {
    Map(Filter(joined, (x: Scheduled) => Wanted(x, company, day)), (x: Scheduled) => x.0.0)
  }

  function JoinOf(t: Tables, schedules: seq<ScheduleRow>): seq<Scheduled> {
    SendJoin(t.(schedules := schedules))
  }

  lemma JoinOfCons(t: Tables, s: ScheduleRow, rest: seq<ScheduleRow>)
    ensures JoinOf(t, [s] + rest) == JoinOf(t, [s]) + JoinOf(t, rest)
  {
    var on1, on2 := (s: ScheduleRow, jw: JobWorkerRow) => jw.id == s.jobWorkerId,
                    (x: (ScheduleRow, JobWorkerRow), cw: CompanyWorkerRow) => cw.id == x.1.companyWorkerId;
    JoinAppend([s], rest, t.jobWorkers, on1);
    JoinAppend(Join([s], t.jobWorkers, on1), Join(rest, t.jobWorkers, on1), t.companyWorkers, on2);
  }

  lemma SelectOfAppend(a: seq<Scheduled>, b: seq<Scheduled>, company: int, day: int)
    ensures SelectOf(a + b, company, day) == SelectOf(a, company, day) + SelectOf(b, company, day)
  {
    var p, f := (x: Scheduled) => Wanted(x, company, day), (x: Scheduled) => x.0.0;
    FilterAppend(a, b, p);
    MapAppend(Filter(a, p), Filter(b, p), f);
  }

  /** The chain of rows from a schedule to its company worker. */
  predicate Chain(t: Tables, s: ScheduleRow, jw: JobWorkerRow, cw: CompanyWorkerRow) {
    jw in t.jobWorkers && jw.id == s.jobWorkerId && cw in t.companyWorkers && cw.id == jw.companyWorkerId
  }

  lemma JoinOfChain(t: Tables, s: ScheduleRow, jw: JobWorkerRow, cw: CompanyWorkerRow)
    requires KeysUnique(t) && Chain(t, s, jw, cw)
    ensures JoinOf(t, [s]) == [((s, jw), cw)]
    ensures forall jw', cw' :: Chain(t, s, jw', cw') ==> jw' == jw && cw' == cw
  {
    var on1, on2 := (s: ScheduleRow, jw: JobWorkerRow) => jw.id == s.jobWorkerId,
                    (x: (ScheduleRow, JobWorkerRow), cw: CompanyWorkerRow) => cw.id == x.1.companyWorkerId;
    JoinOne(s, t.jobWorkers, on1);
    assert Join([s], t.jobWorkers, on1) == [(s, jw)];
    JoinOne((s, jw), t.companyWorkers, on2);
  }

  lemma JoinOfNoChain(t: Tables, s: ScheduleRow)
    requires KeysUnique(t) && forall jw, cw :: !Chain(t, s, jw, cw)
    ensures JoinOf(t, [s]) == []
  {
    var on1, on2 := (s: ScheduleRow, jw: JobWorkerRow) => jw.id == s.jobWorkerId,
                    (x: (ScheduleRow, JobWorkerRow), cw: CompanyWorkerRow) => cw.id == x.1.companyWorkerId;
    JoinOne(s, t.jobWorkers, on1);
    if jw :| jw in t.jobWorkers && jw.id == s.jobWorkerId {
      assert Join([s], t.jobWorkers, on1) == [(s, jw)];
      assert forall cw :: cw in t.companyWorkers ==> !Chain(t, s, jw, cw);
      JoinOne((s, jw), t.companyWorkers, on2);
    }
  }

  lemma SelectOfOne(x: Scheduled, company: int, day: int)
    ensures SelectOf([x], company, day) == if x.1.companyId == company && day * DAY <= x.0.0.startAt < (day + 1) * DAY then [x.0.0] else []
  {
    assert [x][1..] == [];
  }

  lemma ChainDecides(t: Tables, company: int, day: int, s: ScheduleRow, jw: JobWorkerRow, cw: CompanyWorkerRow)
    requires Chain(t, s, jw, cw) && forall jw', cw' :: Chain(t, s, jw', cw') ==> jw' == jw && cw' == cw
    ensures IsOfCompanyAndDay(t, company, day, s) <==> cw.companyId == company && day * DAY <= s.startAt < (day + 1) * DAY
  {
    if IsOfCompanyAndDay(t, company, day, s) {
      var jw', cw' :| jw' in t.jobWorkers && jw'.id == s.jobWorkerId
                      && cw' in t.companyWorkers && cw'.id == jw'.companyWorkerId && cw'.companyId == company;
      assert Chain(t, s, jw', cw');
    }
  }

  lemma NoChainIsOfNone(t: Tables, company: int, day: int, s: ScheduleRow)
    requires forall jw, cw :: !Chain(t, s, jw, cw)
    ensures !IsOfCompanyAndDay(t, company, day, s)
  {
    assert forall jw, cw ::
        jw in t.jobWorkers && cw in t.companyWorkers && jw.id == s.jobWorkerId && cw.id == jw.companyWorkerId ==> Chain(t, s, jw, cw);
  }

  /** One schedule is selected, once, exactly when it is of the company and the day. */
  lemma SelectOne(t: Tables, company: int, day: int, s: ScheduleRow)
    requires KeysUnique(t)
    ensures SelectOf(JoinOf(t, [s]), company, day) == if IsOfCompanyAndDay(t, company, day, s) then [s] else []
  {
    if jw, cw :| Chain(t, s, jw, cw) {
      JoinOfChain(t, s, jw, cw);
      SelectOfOne(((s, jw), cw), company, day);
      ChainDecides(t, company, day, s, jw, cw);
    } else {
      JoinOfNoChain(t, s);
      NoChainIsOfNone(t, company, day, s);
    }
  }

  lemma {:induction false} SelectionOf(t: Tables, company: int, day: int, schedules: seq<ScheduleRow>)
    requires KeysUnique(t)
    ensures SelectOf(JoinOf(t, schedules), company, day) == Filter(schedules, (s: ScheduleRow) => IsOfCompanyAndDay(t, company, day, s))
  {
    if schedules != [] {
      var s, rest := schedules[0], schedules[1..];
      assert schedules == [s] + rest;
      JoinOfCons(t, s, rest);
      SelectOfAppend(JoinOf(t, [s]), JoinOf(t, rest), company, day);
      SelectOne(t, company, day, s);
      SelectionOf(t, company, day, rest);
    }
  }

  /** The mail's query selects exactly the schedules of the company's workers that start on the day, each as often as it
      is in the table, and in its order. */
  lemma SelectionIsExact(t: Tables, company: int, day: int)
    requires KeysUnique(t)
    ensures SendRows(t, company, day) == Filter(t.schedules, (s: ScheduleRow) => IsOfCompanyAndDay(t, company, day, s))
    ensures forall s :: s in SendRows(t, company, day) <==> s in t.schedules && IsOfCompanyAndDay(t, company, day, s)
  {
    SelectionOf(t, company, day, t.schedules);
    assert t.(schedules := t.schedules) == t;
    var rows := Filter(t.schedules, (s: ScheduleRow) => IsOfCompanyAndDay(t, company, day, s));
    forall s ensures s in rows <==> s in t.schedules && IsOfCompanyAndDay(t, company, day, s) {
    }
  }

  // ---------------------------------------------------------------- the extra joins

  ghost predicate ForeignKeysHold(t: Tables) {
    && (forall i :: 0 <= i < |t.companyWorkers| ==>
          HasOnlyMatch(t.companyWorkers[i], t.workers, (cw: CompanyWorkerRow, w: WorkerRow) => w.id == cw.workerId))
    && (forall i :: 0 <= i < |t.workers| ==>
          HasOnlyMatch(t.workers[i], t.users, (w: WorkerRow, u: NamedRow) => u.id == w.userId))
    && (forall i :: 0 <= i < |t.schedules| ==>
          HasOnlyMatch(t.schedules[i], t.standards, (s: ScheduleRow, std: NamedRow) => std.id == s.standardId))
  }

  /** A selection that looks at the left row only does not see a join over a total unique key. */
  lemma {:induction false} DropJoin<A(!new), B(!new), C>(left: seq<A>, right: seq<B>, on: (A, B) -> bool, p: A -> bool, f: A -> C,
                                                        q: ((A, B)) -> bool, g: ((A, B)) -> C)
    requires forall i :: 0 <= i < |left| ==> HasOnlyMatch(left[i], right, on)
    requires forall a: A, b: B :: q((a, b)) == p(a) && g((a, b)) == f(a)
    ensures Map(Filter(Join(left, right, on), q), g) == Map(Filter(left, p), f)
  {
    if left != [] {
      var a, rest := left[0], left[1..];
      assert HasOnlyMatch(left[0], right, on);
      var j: nat :| OnlyMatch(a, right, on, j);
      OnlyMatchFilters(a, right, on, j);
      forall i | 0 <= i < |rest| ensures HasOnlyMatch(rest[i], right, on) { assert rest[i] == left[i + 1]; }
      DropJoin(rest, right, on, p, f, q, g);
      SelectCons((a, right[j]), Join(rest, right, on), q, g);
      SelectCons(a, rest, p, f);
      assert left == [a] + rest;
    }
  }

  lemma SelectCons<A, C>(a: A, rest: seq<A>, p: A -> bool, f: A -> C)
    ensures Map(Filter([a] + rest, p), f) == (if p(a) then [f(a)] else []) + Map(Filter(rest, p), f)
  {
    assert ([a] + rest)[1..] == rest;
    if p(a) {
      MapAppend([a], Filter(rest, p), f);
      assert Map([a], f) == [f(a)];
    }
  }

  lemma {:induction false} JoinMembers<A, B>(left: seq<A>, right: seq<B>, on: (A, B) -> bool)
    ensures forall i :: 0 <= i < |Join(left, right, on)| ==>
              Join(left, right, on)[i].0 in left && Join(left, right, on)[i].1 in right
  {
    if left != [] {
      JoinMembers(left[1..], right, on);
    }
  }

  lemma WorkersMatch(t: Tables)
    requires ForeignKeysHold(t)
    ensures forall i :: 0 <= i < |SendJoin(t)| ==> HasOnlyMatch(SendJoin(t)[i], t.workers, OnWorker)
    ensures forall i :: 0 <= i < |SendJoin(t)| ==> SendJoin(t)[i].0.0 in t.schedules
  {
    var j1 := Join(t.schedules, t.jobWorkers, (s: ScheduleRow, jw: JobWorkerRow) => jw.id == s.jobWorkerId);
    JoinMembers(t.schedules, t.jobWorkers, (s: ScheduleRow, jw: JobWorkerRow) => jw.id == s.jobWorkerId);
    JoinMembers(j1, t.companyWorkers, (x: (ScheduleRow, JobWorkerRow), cw: CompanyWorkerRow) => cw.id == x.1.companyWorkerId);
    var j2 := SendJoin(t);
    forall i | 0 <= i < |j2| ensures HasOnlyMatch(j2[i], t.workers, OnWorker) {
      var on := (cw: CompanyWorkerRow, w: WorkerRow) => w.id == cw.workerId;
      var k :| 0 <= k < |t.companyWorkers| && t.companyWorkers[k] == j2[i].1;
      assert HasOnlyMatch(t.companyWorkers[k], t.workers, on);
      var j: nat :| OnlyMatch(t.companyWorkers[k], t.workers, on, j);
      assert OnlyMatch(j2[i], t.workers, OnWorker, j);
    }
  }

  lemma UsersMatch(t: Tables, j2: seq<Scheduled>)
    requires ForeignKeysHold(t)
    ensures forall i :: 0 <= i < |Join(j2, t.workers, OnWorker)| ==> HasOnlyMatch(Join(j2, t.workers, OnWorker)[i], t.users, OnUser)
  {
    var j3 := Join(j2, t.workers, OnWorker);
    JoinMembers(j2, t.workers, OnWorker);
    forall i | 0 <= i < |j3| ensures HasOnlyMatch(j3[i], t.users, OnUser) {
      var on := (w: WorkerRow, u: NamedRow) => u.id == w.userId;
      var k :| 0 <= k < |t.workers| && t.workers[k] == j3[i].1;
      assert HasOnlyMatch(t.workers[k], t.users, on);
      var j: nat :| OnlyMatch(t.workers[k], t.users, on, j);
      assert OnlyMatch(j3[i], t.users, OnUser, j);
    }
  }

  lemma StandardsMatch(t: Tables, j4: seq<((Scheduled, WorkerRow), NamedRow)>)
    requires ForeignKeysHold(t)
    requires forall i :: 0 <= i < |j4| ==> j4[i].0.0.0.0 in t.schedules
    ensures forall i :: 0 <= i < |j4| ==> HasOnlyMatch(j4[i], t.standards, OnStandard)
  {
    forall i | 0 <= i < |j4| ensures HasOnlyMatch(j4[i], t.standards, OnStandard) {
      var on := (s: ScheduleRow, std: NamedRow) => std.id == s.standardId;
      var k :| 0 <= k < |t.schedules| && t.schedules[k] == j4[i].0.0.0.0;
      assert HasOnlyMatch(t.schedules[k], t.standards, on);
      var j: nat :| OnlyMatch(t.schedules[k], t.standards, on, j);
      assert OnlyMatch(j4[i], t.standards, OnStandard, j);
    }
  }

  /** The three extra inner joins of the preview neither drop nor duplicate a schedule. */
  lemma PreviewSelectsWhatSendSelects(t: Tables, company: int, day: int)
    requires ForeignKeysHold(t)
    ensures PreviewRows(t, company, day) == SendRows(t, company, day)
  {
    var j2 := SendJoin(t);
    var j3 := Join(j2, t.workers, OnWorker);
    var j4 := Join(j3, t.users, OnUser);
    WorkersMatch(t);
    UsersMatch(t, j2);
    JoinMembers(j2, t.workers, OnWorker);
    JoinMembers(j3, t.users, OnUser);
    StandardsMatch(t, j4);
    DropJoin(j4, t.standards, OnStandard,
             (x: ((Scheduled, WorkerRow), NamedRow)) => Wanted(x.0.0, company, day), (x: ((Scheduled, WorkerRow), NamedRow)) => x.0.0.0.0,
             (x: Named) => Wanted(x.0.0.0, company, day), (x: Named) => x.0.0.0.0.0);
    DropJoin(j3, t.users, OnUser,
             (x: (Scheduled, WorkerRow)) => Wanted(x.0, company, day), (x: (Scheduled, WorkerRow)) => x.0.0.0,
             (x: ((Scheduled, WorkerRow), NamedRow)) => Wanted(x.0.0, company, day), (x: ((Scheduled, WorkerRow), NamedRow)) => x.0.0.0.0);
    DropJoin(j2, t.workers, OnWorker,
             (x: Scheduled) => Wanted(x, company, day), (x: Scheduled) => x.0.0,
             (x: (Scheduled, WorkerRow)) => Wanted(x.0, company, day), (x: (Scheduled, WorkerRow)) => x.0.0.0);
  }

  // ---------------------------------------------------------------- ordering, cap and attachments

  ghost predicate SortedByStart(rows: seq<ScheduleRow>) {
    forall i, j :: 0 <= i < j < |rows| ==> rows[i].startAt <= rows[j].startAt
  }

  /** ORDER BY returns the selected rows in some order that respects the sort key. */
  ghost predicate Ordered(rows: seq<ScheduleRow>, selected: seq<ScheduleRow>) {
    multiset(rows) == multiset(selected) && SortedByStart(rows)
  }

  function Capped(rows: seq<ScheduleRow>): seq<ScheduleRow> {
    if |rows| > MAX_BULK_SCHEDULES then rows[..MAX_BULK_SCHEDULES] else rows
  }

  datatype Attachment = Attachment(scheduleId: int, body: seq<bv8>)

  datatype Mail = Mail(recipient: string, day: int, attachments: seq<Attachment>, mentionsCap: bool)

  /** `render` of a schedule in a format gives a body or raises. */
  type Renderer = (int, string) -> Result<seq<bv8>, string>

  /** How send_email (app/integrations/email.py:27-68) goes: switched off it returns without sending, otherwise the
      provider takes the mail and may name it, or the call raises. */
  datatype Mailer = Disabled | Accepts(messageId: Option<string>) | Refuses(error: string)

  /** What send returns, or that it raised. */
  datatype SendOutcome =
    | Sent(count: nat, messageId: Option<string>, truncated: bool)
    | Raised(error: string)

  /** The ZIP: one entry per row in order, or the first failure. */
  function Zip(rows: seq<ScheduleRow>, format: string, render: Renderer): Result<seq<Attachment>, string> {
    if rows == [] then Ok([])
    else
      var n := |rows| - 1;
      match Zip(rows[..n], format, render)
      case Err(e) => Err(e)
      case Ok(zip) =>
        match render(rows[n].id, format)
        case Err(e) => Err(e)
        case Ok(body) => Ok(zip + [Attachment(rows[n].id, body)])
  }

  function Deliver(mail: Mail, mailer: Mailer): (Result<Option<string>, string>, seq<Mail>) {
    match mailer
    case Disabled => (Ok(None), [])
    case Accepts(id) => (Ok(id), [mail])
    case Refuses(e) => (Err(e), [])
  }

  /** What send answers for the selected rows, and the mails the provider took. */
  function SendResult(rows: seq<ScheduleRow>, recipient: string, day: int, format: string, render: Renderer, mailer: Mailer): (SendOutcome, seq<Mail>) {
    if rows == [] then (Sent(0, None, false), [])
    else
      match Zip(Capped(rows), format, render)
      case Err(e) => (Raised(e), [])
      case Ok(zip) =>
        var (reply, taken) := Deliver(Mail(recipient, day, zip, |rows| > MAX_BULK_SCHEDULES), mailer);
        match reply
        case Err(e) => (Raised(e), taken)
        case Ok(id) => (Sent(|Capped(rows)|, id, |rows| > MAX_BULK_SCHEDULES), taken)
  }

  /** One attachment per row, in order, each with its own rendering; or the error of the first row that has none. */
  lemma {:induction false} ZipAttachesEachRow(rows: seq<ScheduleRow>, format: string, render: Renderer)
    ensures Zip(rows, format, render).Ok? <==> forall i :: 0 <= i < |rows| ==> render(rows[i].id, format).Ok?
    ensures Zip(rows, format, render).Ok? ==>
              && |Zip(rows, format, render).value| == |rows|
              && forall i :: 0 <= i < |rows| ==>
                   Zip(rows, format, render).value[i].scheduleId == rows[i].id && Ok(Zip(rows, format, render).value[i].body) == render(rows[i].id, format)
    ensures Zip(rows, format, render).Err? ==>
              exists i :: 0 <= i < |rows| && render(rows[i].id, format) == Err(Zip(rows, format, render).error)
                          && forall j :: 0 <= j < i ==> render(rows[j].id, format).Ok?
  {
    if rows != [] {
      ZipAttachesEachRow(rows[..|rows| - 1], format, render);
      if Zip(rows, format, render).Err? {
        var n := |rows| - 1;
        if Zip(rows[..n], format, render).Err? {
          var i :| 0 <= i < n && render(rows[..n][i].id, format) == Err(Zip(rows, format, render).error)
                   && forall j :: 0 <= j < i ==> render(rows[..n][j].id, format).Ok?;
          assert rows[i] == rows[..n][i] && forall j :: 0 <= j < i ==> rows[j] == rows[..n][j];
        } else {
          assert forall j :: 0 <= j < n ==> rows[j] == rows[..n][j];
          assert render(rows[n].id, format) == Err(Zip(rows, format, render).error);
        }
      }
    }
  }

  /** send after its query: the ZIP loop and the mail. */
  method Send(rows: seq<ScheduleRow>, recipient: string, day: int, format: string, render: Renderer, mailer: Mailer)
    returns (outcome: SendOutcome, taken: seq<Mail>)
    ensures (outcome, taken) == SendResult(rows, recipient, day, format, render, mailer)
  {
    if rows == [] {
      return Sent(0, None, false), [];
    }
    var truncated := |rows| > MAX_BULK_SCHEDULES;
    var filtered := Capped(rows);
    var zip: seq<Attachment> := [];
    var k := 0;
    while k < |filtered|
      invariant 0 <= k <= |filtered| && Zip(filtered[..k], format, render) == Ok(zip)
    {
      ZipStep(filtered, format, render, k);
      var body := render(filtered[k].id, format);
      if body.Err? {
        ZipStaysFailed(filtered, format, render, k + 1);
        return Raised(body.error), [];
      }
      zip := zip + [Attachment(filtered[k].id, body.value)];
      k := k + 1;
    }
    assert filtered[..k] == filtered;
    var mail := Mail(recipient, day, zip, truncated);
    if mailer.Refuses? {
      return Raised(mailer.error), [];
    }
    taken := if mailer.Accepts? then [mail] else [];
    outcome := Sent(|filtered|, if mailer.Accepts? then mailer.messageId else None, truncated);
  }

  lemma SendTakesAtMostOne(rows: seq<ScheduleRow>, recipient: string, day: int, format: string, render: Renderer, mailer: Mailer)
    ensures var (outcome, taken) := SendResult(rows, recipient, day, format, render, mailer);
            |taken| <= 1 && (outcome.Raised? ==> taken == [])
  {
  }

  /** What the answer of send says: how many journals, whether there were more, and which mail the provider took. */
  ghost predicate SendAnswers(rows: seq<ScheduleRow>, recipient: string, day: int, format: string, render: Renderer, mailer: Mailer,
                              outcome: SendOutcome, taken: seq<Mail>)
  {
    outcome.Sent? ==>
      && outcome.count == |Capped(rows)| && (outcome.truncated <==> |rows| > MAX_BULK_SCHEDULES)
      && (rows == [] || !mailer.Accepts? ==> outcome.messageId.None? && taken == [])
      && (rows != [] && mailer.Accepts? ==>
            outcome.messageId == mailer.messageId && |taken| == 1 && Attaches(taken[0], rows, recipient, day, format, render))
      && (rows != [] ==> !mailer.Refuses?)
  }

  /** The mail to the recipient with each of the first 300 rows, in order, as rendered. */
  ghost predicate Attaches(m: Mail, rows: seq<ScheduleRow>, recipient: string, day: int, format: string, render: Renderer) {
    && m.recipient == recipient && m.day == day && m.mentionsCap == (|rows| > MAX_BULK_SCHEDULES) && |m.attachments| == |Capped(rows)|
    && forall i :: 0 <= i < |Capped(rows)| ==>
         m.attachments[i].scheduleId == Capped(rows)[i].id && Ok(m.attachments[i].body) == render(Capped(rows)[i].id, format)
  }

  lemma SendMeans(rows: seq<ScheduleRow>, recipient: string, day: int, format: string, render: Renderer, mailer: Mailer)
    ensures var (outcome, taken) := SendResult(rows, recipient, day, format, render, mailer);
            SendAnswers(rows, recipient, day, format, render, mailer, outcome, taken)
  {
    ZipAttachesEachRow(Capped(rows), format, render);
  }

  /** A mail is taken exactly when send returned and mailing is switched on; switched off, send returns all the same. */
  lemma MailIsTakenIff(rows: seq<ScheduleRow>, recipient: string, day: int, format: string, render: Renderer, mailer: Mailer)
    requires rows != []
    ensures var (outcome, taken) := SendResult(rows, recipient, day, format, render, mailer);
            && (outcome.Sent? <==> (forall i :: 0 <= i < |Capped(rows)| ==> render(Capped(rows)[i].id, format).Ok?) && !mailer.Refuses?)
            && (taken != [] <==> outcome.Sent? && mailer.Accepts?)
            && (taken != [] ==> taken == [Mail(recipient, day, Zip(Capped(rows), format, render).value, |rows| > MAX_BULK_SCHEDULES)])
  {
    ZipAttachesEachRow(Capped(rows), format, render);
  }

  lemma ZipStep(rows: seq<ScheduleRow>, format: string, render: Renderer, k: nat)
    requires k < |rows|
    ensures Zip(rows[..k + 1], format, render)
            == match Zip(rows[..k], format, render)
               case Err(e) => Err(e)
               case Ok(zip) =>
                 match render(rows[k].id, format)
                 case Err(e) => Err(e)
                 case Ok(body) => Ok(zip + [Attachment(rows[k].id, body)])
  {
    assert rows[..k + 1][..k] == rows[..k];
  }

  lemma {:induction false} ZipStaysFailed(rows: seq<ScheduleRow>, format: string, render: Renderer, k: nat)
    requires k <= |rows| && Zip(rows[..k], format, render).Err?
    ensures Zip(rows, format, render) == Zip(rows[..k], format, render)
    decreases |rows| - k
  {
    if k == |rows| {
      assert rows[..k] == rows;
    } else {
      ZipStep(rows, format, render, k);
      ZipStaysFailed(rows, format, render, k + 1);
    }
  }

  /** For one database state the preview counts what the mail attaches: min(300, count) journals, truncated beyond
      300, and every attached start at or before every omitted one. */
  lemma PreviewAnnouncesTheMail(t: Tables, company: int, day: int, rows: seq<ScheduleRow>, previewed: seq<ScheduleRow>)
    requires ForeignKeysHold(t)
    requires Ordered(rows, SendRows(t, company, day))
    requires multiset(previewed) == multiset(PreviewRows(t, company, day))
    ensures multiset(Map(rows, (s: ScheduleRow) => s.id)) == multiset(Map(previewed, (s: ScheduleRow) => s.id))
    ensures |Capped(rows)| == if |previewed| > MAX_BULK_SCHEDULES then MAX_BULK_SCHEDULES else |previewed|
    ensures |rows| > MAX_BULK_SCHEDULES <==> |previewed| > MAX_BULK_SCHEDULES
    ensures forall i, j :: 0 <= i < |Capped(rows)| <= j < |rows| ==> Capped(rows)[i].startAt <= rows[j].startAt
    ensures Capped(rows) <= rows
  {
    PreviewSelectsWhatSendSelects(t, company, day);
    MapPermutation(rows, previewed, (s: ScheduleRow) => s.id);
    SameSize(rows, previewed);
  }

  lemma SameSize(a: seq<ScheduleRow>, b: seq<ScheduleRow>)
    requires multiset(a) == multiset(b)
    ensures |a| == |b|
  {
    assert |multiset(a)| == |a| && |multiset(b)| == |b|;
  }

  /** Every instant lies in exactly one day's window, the last microsecond included. */
  lemma EveryInstantInOneDay(startAt: int, day: int)
    ensures InDay(startAt, day) <==> day == startAt / DAY
  {
    if InDay(startAt, day) {
      var q := startAt / DAY;
      assert q * DAY <= startAt < (q + 1) * DAY;
      assert day * DAY < (q + 1) * DAY && q * DAY < (day + 1) * DAY;
    }
  }
}
