/** Isolation between companies: runs of the scoped leave, kiosk, journal-schedule and bulk-mail endpoints
    (app/api/v1/leaves.py, kiosks.py, work_journals.py) over the transaction boundary of app/core/database.py:92-109. */
module TenantScope {
  import opened Prelude
  import opened Tenant
  import BulkMail
  import Jobs = BulkMailJobs
  import Journal = JournalSchedules
  import Kiosks
  import Leaves

  datatype Tables = Tables(leaves: map<int, Leaves.Leave>, kiosks: map<int, Kiosks.Kiosk>, schedules: map<int, Journal.Row>)

  /** One sequence per table; rollbacks do not give ids back. */
  datatype Ids = Ids(leave: int, kiosk: int, schedule: int)

  /** What a request reads besides the tables. */
  datatype Env = Env(companies: set<int>, workers: set<int>, digit: char -> Option<nat>, now: nat)

  datatype Request =
    | ForLeaves(leave: Leaves.Request)
    | ForKiosks(kiosk: Kiosks.Request)
    | ForSchedules(schedule: Journal.Request)
    | PostJob(companyId: int, day: int, recipient: string, format: string, requestedBy: Option<int>)

  /** The working copy and the sequences when the handler stops, and whether it returned normally. */
  datatype Served = Served(tables: Tables, ids: Ids, ok: bool)

  function Handle(t: Tables, ids: Ids, scope: Scope, req: Request, env: Env): Served
    requires !req.PostJob?
  {
    match req
    case ForLeaves(r) =>
      var h := Leaves.Handle(t.leaves, ids.leave, env.workers, env.companies, scope, r);
      Served(t.(leaves := h.rows), ids.(leave := h.nextId), h.ok)
    case ForKiosks(r) =>
      var h := Kiosks.Handle(t.kiosks, ids.kiosk, env.companies, scope, r);
      Served(t.(kiosks := h.rows), ids.(kiosk := h.nextId), h.ok)
    case ForSchedules(r) =>
      var h := Journal.Handle(env.digit, t.schedules, ids.schedule, env.companies, scope, r, env.now);
      Served(t.(schedules := h.rows), ids.(schedule := h.nextId), h.ok)
  }

  /** The bulk-mail endpoint commits itself; a job for a company that does not exist fails on the foreign key, after its
      id was drawn. */
  function Posted(jobs: Jobs.State, scope: Scope, req: Request, env: Env, commits: bool, survives: bool): Jobs.State
    requires req.PostJob?
  {
    if !InScope(scope, req.companyId) then jobs
    else Jobs.Apply(jobs, Jobs.Post(req.companyId, req.day, req.recipient, req.format, req.requestedBy,
                                    commits && req.companyId in env.companies, survives))
  }

  // ---------------------------------------------------------------- runs

  /** The committed tables, and the bulk-mail jobs with their runners. */
  datatype State = State(tables: Tables, ids: Ids, jobs: Jobs.State)

  datatype Event =
    /** `commits` is false when the session rolls back although the handler returned; `survives` is for the runner. */
    | Request(scope: Scope, request: Request, env: Env, commits: bool, survives: bool)
    /** A step of the runner of some enqueued job, or of the clock: it carries no scope. */
    | Background(event: Jobs.Event)

  function Apply(s: State, e: Event): State {
    match e
    case Request(scope, req, env, commits, survives) =>
      if req.PostJob? then s.(jobs := Posted(s.jobs, scope, req, env, commits, survives))
      else
        var h := Handle(s.tables, s.ids, scope, req, env);
        State(if h.ok && commits then h.tables else s.tables, h.ids, s.jobs)
    case Background(event) =>
      if event.Post? then s else s.(jobs := Jobs.Apply(s.jobs, event))
  }

  function After(s: State, events: seq<Event>): State
    decreases |events|
  {
    if events == [] then s else After(Apply(s, events[0]), events[1..])
  }

  // ---------------------------------------------------------------- isolation

  /** The rows a company owns are the same rows with the same contents: none edited, deleted, added or moved in. */
  ghost predicate SameRowsOf<R>(company: int, m: map<int, R>, m': map<int, R>, companyOf: R -> int) {
    forall id :: (id in m && companyOf(m[id]) == company) || (id in m' && companyOf(m'[id]) == company)
            ==> id in m && id in m' && m[id] == m'[id]
  }

  function LeaveCompany(r: Leaves.Leave): int { r.companyId }
  function KioskCompany(r: Kiosks.Kiosk): int { r.companyId }
  function ScheduleCompany(r: Journal.Row): int { r.companyId }
  function JobCompany(r: Jobs.Job): int { r.companyId }

  ghost predicate TablesUntouched(company: int, t: Tables, t': Tables) {
    && SameRowsOf(company, t.leaves, t'.leaves, LeaveCompany)
    && SameRowsOf(company, t.kiosks, t'.kiosks, KioskCompany)
    && SameRowsOf(company, t.schedules, t'.schedules, ScheduleCompany)
  }

  ghost predicate Untouched(company: int, s: State, s': State) {
    TablesUntouched(company, s.tables, s'.tables) && SameRowsOf(company, s.jobs.jobs, s'.jobs.jobs, JobCompany)
  }

  ghost predicate Fresh<R>(m: map<int, R>, next: int) {
    forall id :: id in m ==> id < next
  }

  ghost predicate IdsFresh(t: Tables, ids: Ids) {
    Fresh(t.leaves, ids.leave) && Fresh(t.kiosks, ids.kiosk) && Fresh(t.schedules, ids.schedule)
  }

  lemma LeavesStayInScope(rows: map<int, Leaves.Leave>, nextId: int, scope: Scope, req: Leaves.Request, env: Env, company: int)
    requires Fresh(rows, nextId) && !InScope(scope, company)
    ensures var h := Leaves.Handle(rows, nextId, env.workers, env.companies, scope, req);
            SameRowsOf(company, rows, h.rows, LeaveCompany) && Fresh(h.rows, h.nextId) && nextId <= h.nextId
  {
  }

  lemma KiosksStayInScope(rows: map<int, Kiosks.Kiosk>, nextId: int, scope: Scope, req: Kiosks.Request, env: Env, company: int)
    requires Fresh(rows, nextId) && !InScope(scope, company)
    ensures var h := Kiosks.Handle(rows, nextId, env.companies, scope, req);
            SameRowsOf(company, rows, h.rows, KioskCompany) && Fresh(h.rows, h.nextId) && nextId <= h.nextId
  {
  }

  lemma SchedulesStayInScope(rows: map<int, Journal.Row>, nextId: int, scope: Scope, req: Journal.Request, env: Env, company: int)
    requires Fresh(rows, nextId) && !InScope(scope, company)
    ensures var h := Journal.Handle(env.digit, rows, nextId, env.companies, scope, req, env.now);
            SameRowsOf(company, rows, h.rows, ScheduleCompany) && Fresh(h.rows, h.nextId) && nextId <= h.nextId
  {
  }

  /** A request under the scope of one company leaves the rows of every other company alone, in the session's working
      copy too, whether the handler returns or raises halfway. */
  lemma RequestsStayInScope(t: Tables, ids: Ids, scope: Scope, req: Request, env: Env, company: int)
    requires !req.PostJob? && IdsFresh(t, ids) && !InScope(scope, company)
    ensures var h := Handle(t, ids, scope, req, env);
            TablesUntouched(company, t, h.tables) && IdsFresh(h.tables, h.ids) && IdsFresh(t, h.ids)
  {
    match req
    case ForLeaves(r) => LeavesStayInScope(t.leaves, ids.leave, scope, r, env, company);
    case ForKiosks(r) => KiosksStayInScope(t.kiosks, ids.kiosk, scope, r, env, company);
    case ForSchedules(r) => SchedulesStayInScope(t.schedules, ids.schedule, scope, r, env, company);
  }

  /** Jobs that are waiting for a runner, or have one, are jobs of other companies. */
  ghost predicate RunnersElsewhere(jobs: Jobs.State, company: int) {
    forall id :: id in jobs.queue || id in jobs.running ==> id in jobs.jobs && jobs.jobs[id].companyId != company
  }

  lemma PostStaysInScope(jobs: Jobs.State, scope: Scope, req: Request, env: Env, commits: bool, survives: bool, company: int)
    requires req.PostJob? && Fresh(jobs.jobs, jobs.nextId) && RunnersElsewhere(jobs, company) && !InScope(scope, company)
    ensures var jobs' := Posted(jobs, scope, req, env, commits, survives);
            SameRowsOf(company, jobs.jobs, jobs'.jobs, JobCompany) && Fresh(jobs'.jobs, jobs'.nextId) && RunnersElsewhere(jobs', company)
  {
  }

  lemma RunnersStayElsewhere(jobs: Jobs.State, e: Jobs.Event, company: int)
    requires !e.Post? && Fresh(jobs.jobs, jobs.nextId) && RunnersElsewhere(jobs, company)
    ensures var jobs' := Jobs.Apply(jobs, e);
            SameRowsOf(company, jobs.jobs, jobs'.jobs, JobCompany) && Fresh(jobs'.jobs, jobs'.nextId) && RunnersElsewhere(jobs', company)
  {
    if e.Finish? && e.id in jobs.running && !e.reach.BeforeSend? {
      FinishStaysElsewhere(jobs, e.id, Jobs.AttemptOf(Jobs.OrderOf(jobs.jobs[e.id]), e.reading, e.reach), company);
    }
  }

  lemma FinishStaysElsewhere(jobs: Jobs.State, id: int, a: Jobs.Attempt, company: int)
    requires id in jobs.running && Fresh(jobs.jobs, jobs.nextId) && RunnersElsewhere(jobs, company)
    ensures var jobs' := Jobs.Finished(jobs, id, a);
            SameRowsOf(company, jobs.jobs, jobs'.jobs, JobCompany) && Fresh(jobs'.jobs, jobs'.nextId) && RunnersElsewhere(jobs', company)
  {
  }

  /** The event is outside the company: its scope excludes it. Runners carry no scope, so they are all allowed. */
  ghost predicate Outside(e: Event, company: int) {
    e.Request? ==> !InScope(e.scope, company)
  }

  ghost predicate Ready(s: State, company: int) {
    IdsFresh(s.tables, s.ids) && Fresh(s.jobs.jobs, s.jobs.nextId) && RunnersElsewhere(s.jobs, company)
  }

  lemma EventStaysOutside(s: State, e: Event, company: int)
    requires Ready(s, company) && Outside(e, company)
    ensures Untouched(company, s, Apply(s, e)) && Ready(Apply(s, e), company)
  {
    match e
    case Request(scope, req, env, commits, survives) =>
      if req.PostJob? {
        PostStaysInScope(s.jobs, scope, req, env, commits, survives, company);
      } else {
        RequestsStayInScope(s.tables, s.ids, scope, req, env, company);
      }
    case Background(event) =>
      if !event.Post? { RunnersStayElsewhere(s.jobs, event, company); }
  }

  /** Over every run of requests whose scopes exclude a company, with failed requests, rollbacks and the runners they
      enqueue, the company's rows in all four tables stay exactly as they were. */
  lemma {:induction false} RunsLeaveOthersAlone(s: State, events: seq<Event>, company: int)
    requires Ready(s, company)
    requires forall i :: 0 <= i < |events| ==> Outside(events[i], company)
    ensures Untouched(company, s, After(s, events))
    decreases |events|
  {
    if events != [] {
      var s' := Apply(s, events[0]);
      EventStaysOutside(s, events[0], company);
      RunsLeaveOthersAlone(s', events[1..], company);
    }
  }

  // ---------------------------------------------------------------- what every scope keeps

  /** A leave runs forwards and counts both its end days. */
  ghost predicate LeaveValid(l: Leaves.Leave) {
    l.startDate <= l.endDate && l.days == l.endDate - l.startDate + 1
  }

  ghost predicate TablesValid(t: Tables) {
    && (forall id :: id in t.leaves ==> LeaveValid(t.leaves[id]))
    && Kiosks.KeysUnique(t.kiosks)
  }

  lemma BindingKeepsKeys(rows: map<int, Kiosks.Kiosk>, nextId: int, scope: Scope, req: Kiosks.Request, env: Env)
    requires Fresh(rows, nextId) && Kiosks.KeysUnique(rows)
    ensures Kiosks.KeysUnique(Kiosks.Handle(rows, nextId, env.companies, scope, req).rows)
  {
    var rows' := Kiosks.Handle(rows, nextId, env.companies, scope, req).rows;
    if req.Bind? {
      assert forall id :: id in rows' && id != nextId ==> id in rows && rows'[id] == rows[id];
    }
  }

  lemma HandlersKeepValid(t: Tables, ids: Ids, scope: Scope, req: Request, env: Env)
    requires !req.PostJob? && IdsFresh(t, ids) && TablesValid(t)
    ensures var h := Handle(t, ids, scope, req, env);
            TablesValid(h.tables) && IdsFresh(h.tables, h.ids) && IdsFresh(t, h.ids)
  {
    match req
    case ForKiosks(r) => BindingKeepsKeys(t.kiosks, ids.kiosk, scope, r, env);
    case _ =>
  }

  /** Over every run of any scopes, every leave runs forwards with the right number of days and no company has a kiosk
      bound twice. */
  lemma {:induction false} RunsKeepValid(s: State, events: seq<Event>)
    requires IdsFresh(s.tables, s.ids) && TablesValid(s.tables)
    ensures TablesValid(After(s, events).tables)
    decreases |events|
  {
    if events != [] {
      var e := events[0];
      if e.Request? && !e.request.PostJob? {
        HandlersKeepValid(s.tables, s.ids, e.scope, e.request, e.env);
      }
      RunsKeepValid(Apply(s, e), events[1..]);
    }
  }

  lemma LeaveStep(s: State, e: Event, id: int)
    requires IdsFresh(s.tables, s.ids) && id < s.ids.leave
    ensures var s' := Apply(s, e);
            && IdsFresh(s'.tables, s'.ids) && id < s'.ids.leave
            && (id in s'.tables.leaves ==> id in s.tables.leaves && Leaves.Extends(s.tables.leaves[id], s'.tables.leaves[id]))
  {
    if e.Request? && e.request.ForLeaves? {
      Leaves.HandleMeans(s.tables.leaves, s.ids.leave, e.env.workers, e.env.companies, e.scope, e.request.leave);
    }
  }

  lemma {:induction false} GoneLeaveStaysGone(s: State, events: seq<Event>, id: int)
    requires IdsFresh(s.tables, s.ids) && id < s.ids.leave && id !in s.tables.leaves
    ensures id !in After(s, events).tables.leaves
    decreases |events|
  {
    if events != [] {
      LeaveStep(s, events[0], id);
      GoneLeaveStaysGone(Apply(s, events[0]), events[1..], id);
    }
  }

  /** Over every run of any scopes a leave, as long as it is there, is about the same worker, company and days, and its
      reason is only ever extended. */
  lemma {:induction false} LeavesAreOnlyDecided(s: State, events: seq<Event>, id: int)
    requires IdsFresh(s.tables, s.ids) && id in s.tables.leaves
    ensures id in After(s, events).tables.leaves ==> Leaves.Extends(s.tables.leaves[id], After(s, events).tables.leaves[id])
    decreases |events|
  {
    if events != [] {
      var s' := Apply(s, events[0]);
      LeaveStep(s, events[0], id);
      if id in s'.tables.leaves {
        LeavesAreOnlyDecided(s', events[1..], id);
      } else {
        GoneLeaveStaysGone(s', events[1..], id);
      }
    }
  }

  /** A bulk-mail request creates a job exactly in scope, for an existing company and when it commits, and the job is the
      one asked for. */
  lemma PostMeans(jobs: Jobs.State, scope: Scope, req: Request, env: Env, commits: bool, survives: bool)
    requires req.PostJob? && jobs.nextId !in jobs.jobs
    ensures var jobs' := Posted(jobs, scope, req, env, commits, survives);
            && (jobs.nextId in jobs'.jobs <==> (scope.None? || scope.value == req.companyId) && req.companyId in env.companies && commits)
            && (jobs.nextId !in jobs'.jobs ==> jobs'.jobs == jobs.jobs && jobs'.queue == jobs.queue)
            && (jobs.nextId in jobs'.jobs ==>
                  && jobs'.jobs - {jobs.nextId} == jobs.jobs && jobs'.queue == jobs.queue + (if survives then {jobs.nextId} else {})
                  && var j := jobs'.jobs[jobs.nextId];
                     && j.companyId == req.companyId && j.day == req.day && j.recipient == req.recipient && j.format == req.format
                     && j.requestedBy == req.requestedBy && j.status == Jobs.QUEUED)
  {
  }

  // ---------------------------------------------------------------- all or nothing

  /** A leave, kiosk or schedule request that returned and commits. */
  ghost predicate Accepted(s: State, e: Event) {
    e.Request? && !e.request.PostJob? && e.commits && Handle(s.tables, s.ids, e.scope, e.request, e.env).ok
  }

  /** An accepted request commits its whole working copy; anything else, half-edited rows included, commits nothing. */
  lemma RequestsAreAtomic(s: State, e: Event)
    ensures Apply(s, e).tables == if Accepted(s, e) then Handle(s.tables, s.ids, e.scope, e.request, e.env).tables else s.tables
  {
  }

  ghost predicate AcceptsNone(s: State, events: seq<Event>)
    decreases |events|
  {
    events == [] || (!Accepted(s, events[0]) && AcceptsNone(Apply(s, events[0]), events[1..]))
  }

  /** Over every run in which no such request is accepted, the tables stay as they were. */
  lemma {:induction false} RefusedRunsChangeNothing(s: State, events: seq<Event>)
    requires AcceptsNone(s, events)
    ensures After(s, events).tables == s.tables
    decreases |events|
  {
    if events != [] {
      RequestsAreAtomic(s, events[0]);
      RefusedRunsChangeNothing(Apply(s, events[0]), events[1..]);
    }
  }
}
