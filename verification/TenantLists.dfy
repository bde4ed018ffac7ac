/** The scoped lists: leave search, calendar and per-worker lists (app/services/leave.py:75-146), kiosk lists
    (app/services/kiosk.py:19-63), journal schedules (app/services/journal_schedule.py:56-66) and bulk-mail history
    (app/services/document.py:522-536), each behind its endpoint. A table is a map and a list is the ids it shows, in the
    database's order; the joins shown with each row are over non-null foreign keys. */
module TenantLists {
  import opened Prelude
  import opened Tenant
  import opened TenantScope
  import Jobs = BulkMailJobs
  import Journal = JournalSchedules
  import Kiosks
  import Leaves
  import Paging

  predicate Shown<R>(m: map<int, R>, companyOf: R -> int, keep: R -> bool, company: Option<int>, id: int) {
    id in m && (company.None? || companyOf(m[id]) == company.value) && keep(m[id])
  }

  /** The WHERE clause an endpoint builds: the resolved company filter and the list's own conditions. */
  function Listed<R>(m: map<int, R>, order: seq<int>, companyOf: R -> int, keep: R -> bool, scope: Scope, requested: Option<int>)
    : Result<seq<int>, Problem>
  {
    match ResolveCompanyFilter(scope, requested)
    case Err(p) => Err(p)
    case Ok(company) => Ok(Filter(order, id => Shown(m, companyOf, keep, company, id)))
  }

  // ---------------------------------------------------------------- the lists

  /** ILIKE, and the company names it is applied to. */
  datatype Text = Text(like: (string, string) -> bool, companyName: int -> string)

  datatype LeaveQuery = LeaveQuery(
    keyword: Option<string>, workerId: Option<int>, typ: Option<Leaves.LeaveType>, status: Option<Leaves.LeaveStatus>,
    from: Option<int>, until: Option<int>)

  predicate LeaveMatches(q: LeaveQuery, text: Text, r: Leaves.Leave) {
    && (q.workerId.Some? ==> r.workerId == q.workerId.value)
    && (q.typ.Some? ==> r.typ == q.typ.value)
    && (q.status.Some? ==> r.status == q.status.value)
    && (q.from.Some? ==> r.endDate >= q.from.value)
    && (q.until.Some? ==> r.startDate <= q.until.value)
    && (Leaves.Truthy(q.keyword) ==>
          text.like(text.companyName(r.companyId), q.keyword.value) || (r.reason.Some? && text.like(r.reason.value, q.keyword.value)))
  }

  function SearchLeaves(m: map<int, Leaves.Leave>, order: seq<int>, q: LeaveQuery, text: Text, scope: Scope, requested: Option<int>)
    : Result<seq<int>, Problem>
  {
    Listed(m, order, LeaveCompany, r => LeaveMatches(q, text, r), scope, requested)
  }

  function ApprovedLeaves(m: map<int, Leaves.Leave>, order: seq<int>, from: Option<int>, until: Option<int>, text: Text,
                          scope: Scope, requested: Option<int>): Result<seq<int>, Problem> {
    SearchLeaves(m, order, LeaveQuery(None, None, None, Some(Leaves.APPROVED), from, until), text, scope, requested)
  }

  /** The scope narrows the list without refusing a worker of another company. */
  function LeavesOfWorker(m: map<int, Leaves.Leave>, order: seq<int>, workerId: int, from: Option<int>, until: Option<int>,
                          text: Text, scope: Scope): Result<seq<int>, Problem> {
    SearchLeaves(m, order, LeaveQuery(None, Some(workerId), None, None, from, until), text, scope, None)
  }

  function StatusName(status: Kiosks.KioskStatus): string {
    match status
    case IN_USE => "IN_USE"
    case FULL => "FULL"
    case OFFLINE => "OFFLINE"
  }

  predicate KioskMatches(keyword: Option<string>, status: Option<string>, text: Text, r: Kiosks.Kiosk) {
    && (Leaves.Truthy(status) ==> StatusName(r.status) == status.value)
    && (Leaves.Truthy(keyword) ==>
          || (r.name.Some? && text.like(r.name.value, keyword.value))
          || text.like(r.kioskId, keyword.value)
          || text.like(text.companyName(r.companyId), keyword.value))
  }

  function SearchKiosks(m: map<int, Kiosks.Kiosk>, order: seq<int>, keyword: Option<string>, status: Option<string>,
                        text: Text, scope: Scope, requested: Option<int>): Result<seq<int>, Problem> {
    Listed(m, order, KioskCompany, r => KioskMatches(keyword, status, text, r), scope, requested)
  }

  function KiosksOf(m: map<int, Kiosks.Kiosk>, order: seq<int>, company: int, scope: Scope): Result<seq<int>, Problem> {
    if !InScope(scope, company) then Err(Forbidden)
    else Ok(Filter(order, id => id in m && m[id].companyId == company))
  }

  function ListSchedules(m: map<int, Journal.Row>, order: seq<int>, scope: Scope, requested: Option<int>): Result<seq<int>, Problem> {
    Listed(m, order, ScheduleCompany, _ => true, scope, requested)
  }

  /** Before the limit. */
  function AllJobs(m: map<int, Jobs.Job>, order: seq<int>, scope: Scope, requested: Option<int>): Result<seq<int>, Problem> {
    Listed(m, order, JobCompany, _ => true, scope, requested)
  }

  function ListJobs(m: map<int, Jobs.Job>, order: seq<int>, limit: nat, scope: Scope, requested: Option<int>): Result<seq<int>, Problem> {
    match AllJobs(m, order, scope, requested)
    case Err(p) => Err(p)
    case Ok(ids) => Ok(ids[..Paging.Min(limit, |ids|)])
  }

  // ---------------------------------------------------------------- scoped means filtered

  lemma {:induction false} FilterTwice<T>(s: seq<T>, p: T -> bool, q: T -> bool, both: T -> bool)
    requires forall i :: 0 <= i < |s| ==> (both(s[i]) <==> p(s[i]) && q(s[i]))
    ensures Filter(Filter(s, p), q) == Filter(s, both)
  {
    if s != [] {
      FilterTwice(s[1..], p, q, both);
      var head := if p(s[0]) then [s[0]] else [];
      FilterAppend(head, Filter(s[1..], p), q);
      assert head + [] == head;
      assert Filter(head, q) == if both(s[0]) then [s[0]] else [];
    }
  }

  /** The companies a request may and wants to see. */
  predicate Visible(scope: Scope, requested: Option<int>, company: int) {
    InScope(scope, company) && (requested.None? || company == requested.value)
  }

  function Narrowed<R>(ids: seq<int>, m: map<int, R>, companyOf: R -> int, scope: Scope, requested: Option<int>): seq<int> {
    Filter(ids, id => id in m && Visible(scope, requested, companyOf(m[id])))
  }

  /** Every scoped list is refused exactly when another company is asked for; otherwise it is the unrestricted list
      filtered to what may be seen, in the same order. Paging and limiting come after. */
  lemma ScopedIsFiltered<R>(m: map<int, R>, order: seq<int>, companyOf: R -> int, keep: R -> bool, scope: Scope, requested: Option<int>)
    ensures var all := Listed(m, order, companyOf, keep, None, None).value;
            Listed(m, order, companyOf, keep, scope, requested)
            == if scope.Some? && requested.Some? && requested != scope then Err(Forbidden)
               else Ok(Narrowed(all, m, companyOf, scope, requested))
  {
    var resolved := ResolveCompanyFilter(scope, requested);
    if resolved.Ok? {
      FilterTwice(order, id => Shown(m, companyOf, keep, None, id), id => id in m && Visible(scope, requested, companyOf(m[id])),
                  id => Shown(m, companyOf, keep, resolved.value, id));
    }
  }

  /** Leave search, before its page is cut, and the approved leaves. */
  lemma SearchIsFiltered(m: map<int, Leaves.Leave>, order: seq<int>, q: LeaveQuery, text: Text, scope: Scope, requested: Option<int>)
    requires scope.None? || requested.None? || requested == scope
    ensures var all := SearchLeaves(m, order, q, text, None, None).value;
            SearchLeaves(m, order, q, text, scope, requested) == Ok(Narrowed(all, m, LeaveCompany, scope, requested))
  {
    ScopedIsFiltered(m, order, LeaveCompany, r => LeaveMatches(q, text, r), scope, requested);
  }

  lemma ApprovedAreFiltered(m: map<int, Leaves.Leave>, order: seq<int>, from: Option<int>, until: Option<int>, text: Text,
                            scope: Scope, requested: Option<int>)
    requires scope.None? || requested.None? || requested == scope
    ensures var all := ApprovedLeaves(m, order, from, until, text, None, None).value;
            ApprovedLeaves(m, order, from, until, text, scope, requested) == Ok(Narrowed(all, m, LeaveCompany, scope, requested))
  {
    SearchIsFiltered(m, order, LeaveQuery(None, None, None, Some(Leaves.APPROVED), from, until), text, scope, requested);
  }

  /** A charger asking for a worker of another company is not refused, and sees none of that company's leaves. */
  lemma WorkerLeavesAreFiltered(m: map<int, Leaves.Leave>, order: seq<int>, workerId: int, from: Option<int>, until: Option<int>,
                                text: Text, scope: Scope)
    ensures var all := LeavesOfWorker(m, order, workerId, from, until, text, None).value;
            LeavesOfWorker(m, order, workerId, from, until, text, scope) == Ok(Narrowed(all, m, LeaveCompany, scope, None))
  {
    SearchIsFiltered(m, order, LeaveQuery(None, Some(workerId), None, None, from, until), text, scope, None);
  }

  /** The history shows the newest `limit` jobs of the company, not the company's share of the newest `limit`. */
  lemma JobsAreLimitedAfterFiltering(m: map<int, Jobs.Job>, order: seq<int>, limit: nat, scope: Scope, requested: Option<int>)
    requires scope.None? || requested.None? || requested == scope
    ensures var mine := Narrowed(AllJobs(m, order, None, None).value, m, JobCompany, scope, requested);
            ListJobs(m, order, limit, scope, requested) == Ok(mine[..Paging.Min(limit, |mine|)])
  {
    ScopedIsFiltered(m, order, JobCompany, _ => true, scope, requested);
  }

  lemma {:induction false} FilterSame<T>(s: seq<T>, p: T -> bool, q: T -> bool)
    requires forall i :: 0 <= i < |s| ==> (p(s[i]) <==> q(s[i]))
    ensures Filter(s, p) == Filter(s, q)
  {
    if s != [] {
      FilterSame(s[1..], p, q);
    }
  }

  /** The kiosk list of a company page is the unfiltered search narrowed to that company. */
  lemma KiosksOfIsFiltered(m: map<int, Kiosks.Kiosk>, order: seq<int>, company: int, text: Text, scope: Scope)
    ensures KiosksOf(m, order, company, scope) == SearchKiosks(m, order, None, None, text, scope, Some(company))
  {
    FilterSame(order, id => id in m && m[id].companyId == company,
               id => Shown(m, KioskCompany, r => KioskMatches(None, None, text, r), Some(company), id));
  }

  // ---------------------------------------------------------------- others do not show

  /** The order of an id-ordered list: every id of the table once, by strictly decreasing rank. */
  ghost predicate Enumerates<R>(order: seq<int>, m: map<int, R>, rank: int -> int) {
    && (forall i, j :: 0 <= i < j < |order| ==> rank(order[i]) > rank(order[j]))
    && (forall id :: id in order <==> id in m)
  }

  ghost predicate Ranked(s: seq<int>, rank: int -> int) {
    forall i, j :: 0 <= i < j < |s| ==> rank(s[i]) > rank(s[j])
  }

  lemma {:induction false} FilterStaysBelow(s: seq<int>, p: int -> bool, rank: int -> int, bound: int)
    requires forall i :: 0 <= i < |s| ==> rank(s[i]) < bound
    ensures forall i :: 0 <= i < |Filter(s, p)| ==> rank(Filter(s, p)[i]) < bound
  {
    if s != [] {
      FilterStaysBelow(s[1..], p, rank, bound);
      assert Filter(s, p) == (if p(s[0]) then [s[0]] else []) + Filter(s[1..], p);
    }
  }

  lemma {:induction false} FilterKeepsRank(s: seq<int>, p: int -> bool, rank: int -> int)
    requires Ranked(s, rank)
    ensures Ranked(Filter(s, p), rank)
  {
    if s != [] {
      var rest := Filter(s[1..], p);
      FilterKeepsRank(s[1..], p, rank);
      FilterStaysBelow(s[1..], p, rank, rank(s[0]));
      RankedCons(s[0], rest, rank);
      assert Filter(s, p) == if p(s[0]) then [s[0]] + rest else rest;
    }
  }

  lemma RankedCons(x: int, s: seq<int>, rank: int -> int)
    requires Ranked(s, rank) && forall i :: 0 <= i < |s| ==> rank(s[i]) < rank(x)
    ensures Ranked([x] + s, rank)
  {
  }

  ghost predicate AllIn(a: seq<int>, b: seq<int>) {
    forall id :: id in a ==> id in b
  }

  lemma HeadIn(a: seq<int>, b: seq<int>)
    requires AllIn(a, b) && a != []
    ensures a[0] in b
  {
    var id := a[0];
    assert id in a;
  }

  /** Lists in rank order with the same members are the same list. */
  lemma {:induction false} RankedListsAgree(a: seq<int>, b: seq<int>, rank: int -> int)
    requires Ranked(a, rank) && Ranked(b, rank) && AllIn(a, b) && AllIn(b, a)
    ensures a == b
  {
    if a != [] {
      HeadIn(a, b);
    }
    if b != [] {
      HeadIn(b, a);
    }
    if a != [] && b != [] {
      HeadsAgree(a, b, rank);
      TailsIn(a, b, rank);
      TailsIn(b, a, rank);
      RankedListsAgree(a[1..], b[1..], rank);
      assert a == [a[0]] + a[1..] && b == [b[0]] + b[1..];
    }
  }

  lemma HeadsAgree(a: seq<int>, b: seq<int>, rank: int -> int)
    requires Ranked(a, rank) && Ranked(b, rank) && a != [] && b != [] && a[0] in b && b[0] in a
    ensures a[0] == b[0]
  {
    var i :| 0 <= i < |b| && b[i] == a[0];
    var j :| 0 <= j < |a| && a[j] == b[0];
    assert rank(b[0]) >= rank(b[i]) && rank(a[0]) >= rank(a[j]);
    assert i == 0;
  }

  lemma TailsIn(a: seq<int>, b: seq<int>, rank: int -> int)
    requires Ranked(a, rank) && AllIn(a, b) && a != [] && b != [] && a[0] == b[0]
    ensures AllIn(a[1..], b[1..])
  {
    forall id | id in a[1..]
      ensures id in b[1..]
    {
      var i :| 0 <= i < |a[1..]| && a[1..][i] == id;
      assert a[i + 1] == id && rank(a[i + 1]) < rank(a[0]);
      assert id in a && id in b;
      assert b == [b[0]] + b[1..];
    }
  }

  /** Two answers to one list request show the same ids, and under them the same rows. */
  ghost predicate SameList<R>(m: map<int, R>, m': map<int, R>, list: Result<seq<int>, Problem>, list': Result<seq<int>, Problem>) {
    list' == list && (list.Ok? ==> forall id :: id in list.value ==> id in m && id in m' && m'[id] == m[id])
  }

  lemma ShownAlike<R>(company: int, m: map<int, R>, m': map<int, R>, companyOf: R -> int, keep: R -> bool, id: int)
    requires SameRowsOf(company, m, m', companyOf)
    ensures Shown(m, companyOf, keep, Some(company), id) <==> Shown(m', companyOf, keep, Some(company), id)
    ensures Shown(m, companyOf, keep, Some(company), id) ==> m'[id] == m[id]
  {
  }

  lemma Picked(s: seq<int>, p: int -> bool, id: int)
    ensures id in Filter(s, p) <==> id in s && p(id)
  {
  }

  lemma PickedAreIn(s: seq<int>, s': seq<int>, p: int -> bool, p': int -> bool)
    requires forall id: int :: p(id) ==> id in s' && p'(id)
    ensures AllIn(Filter(s, p), Filter(s', p'))
  {
    forall id | id in Filter(s, p)
      ensures id in Filter(s', p')
    {
      Picked(s, p, id);
      Picked(s', p', id);
    }
  }

  /** Two selections that pick the same members out of lists in rank order are the same list. */
  lemma FilteredAgree(s: seq<int>, s': seq<int>, p: int -> bool, p': int -> bool, rank: int -> int)
    requires Ranked(s, rank) && Ranked(s', rank)
    requires forall id: int :: p(id) ==> id in s' && p'(id)
    requires forall id: int :: p'(id) ==> id in s && p(id)
    ensures Filter(s, p) == Filter(s', p')
  {
    FilterKeepsRank(s, p, rank);
    FilterKeepsRank(s', p', rank);
    PickedAreIn(s, s', p, p');
    PickedAreIn(s', s, p', p);
    RankedListsAgree(Filter(s, p), Filter(s', p'), rank);
  }

  /** A charger's id-ordered list is the same before and after any change to other companies' rows. */
  lemma OthersDoNotShow<R>(company: int, m: map<int, R>, m': map<int, R>, order: seq<int>, order': seq<int>, rank: int -> int,
                           companyOf: R -> int, keep: R -> bool, requested: Option<int>)
    requires SameRowsOf(company, m, m', companyOf)
    requires Enumerates(order, m, rank) && Enumerates(order', m', rank)
    ensures SameList(m, m', Listed(m, order, companyOf, keep, Some(company), requested),
                     Listed(m', order', companyOf, keep, Some(company), requested))
  {
    var p := (id: int) => Shown(m, companyOf, keep, Some(company), id);
    var p' := (id: int) => Shown(m', companyOf, keep, Some(company), id);
    forall id: int
      ensures p(id) ==> id in order && id in order' && p'(id) && m'[id] == m[id]
      ensures p'(id) ==> id in order && id in order' && p(id)
    {
      ShownAlike(company, m, m', companyOf, keep, id);
    }
    FilteredAgree(order, order', p, p', rank);
    forall id | id in Filter(order, p)
      ensures id in m && id in m' && m'[id] == m[id]
    {
      Picked(order, p, id);
    }
  }

  /** End to end: whatever other companies' chargers do, in any run, a charger keeps seeing the same kiosks, journal
      schedules and jobs, row for row. */
  lemma RunsOfOthersDoNotShow(s: State, events: seq<Event>, company: int, kiosks: seq<int>, kiosks': seq<int>,
                              schedules: seq<int>, schedules': seq<int>, jobs: seq<int>, jobs': seq<int>,
                              keyword: Option<string>, status: Option<string>, text: Text, limit: nat, requested: Option<int>)
    requires Ready(s, company)
    requires forall i :: 0 <= i < |events| ==> Outside(events[i], company)
    requires var s' := After(s, events);
             && Enumerates(kiosks, s.tables.kiosks, Ascending) && Enumerates(kiosks', s'.tables.kiosks, Ascending)
             && Enumerates(schedules, s.tables.schedules, Descending) && Enumerates(schedules', s'.tables.schedules, Descending)
             && Enumerates(jobs, s.jobs.jobs, Descending) && Enumerates(jobs', s'.jobs.jobs, Descending)
    ensures var t, t' := s.tables, After(s, events).tables;
            && SameList(t.kiosks, t'.kiosks, SearchKiosks(t.kiosks, kiosks, keyword, status, text, Some(company), requested),
                        SearchKiosks(t'.kiosks, kiosks', keyword, status, text, Some(company), requested))
            && SameList(t.schedules, t'.schedules, ListSchedules(t.schedules, schedules, Some(company), requested),
                        ListSchedules(t'.schedules, schedules', Some(company), requested))
    ensures var m, m' := s.jobs.jobs, After(s, events).jobs.jobs;
            SameList(m, m', ListJobs(m, jobs, limit, Some(company), requested), ListJobs(m', jobs', limit, Some(company), requested))
  {
    RunsLeaveOthersAlone(s, events, company);
    var t, t' := s.tables, After(s, events).tables;
    var m, m' := s.jobs.jobs, After(s, events).jobs.jobs;
    OthersDoNotShow(company, t.kiosks, t'.kiosks, kiosks, kiosks', Ascending, KioskCompany, r => KioskMatches(keyword, status, text, r), requested);
    OthersDoNotShow(company, t.schedules, t'.schedules, schedules, schedules', Descending, ScheduleCompany, _ => true, requested);
    OthersDoNotShow(company, m, m', jobs, jobs', Descending, JobCompany, _ => true, requested);
    assert SameList(m, m', AllJobs(m, jobs, Some(company), requested), AllJobs(m', jobs', Some(company), requested));
  }

  function Ascending(id: int): int { -id }
  function Descending(id: int): int { id }

  // ---------------------------------------------------------------- what is listed

  /** Some day of the leave lies in the range asked for. */
  ghost predicate Overlaps(l: Leaves.Leave, from: Option<int>, until: Option<int>) {
    exists d :: OnLeave(l, d) && (from.Some? ==> from.value <= d) && (until.Some? ==> d <= until.value)
  }

  predicate OnLeave(l: Leaves.Leave, d: int) {
    l.startDate <= d <= l.endDate
  }

  /** The bounds the queries put on a leave mean overlap with the range, for leaves and ranges that run forwards. */
  lemma BoundsMeanOverlap(l: Leaves.Leave, from: Option<int>, until: Option<int>)
    requires l.startDate <= l.endDate && (from.Some? && until.Some? ==> from.value <= until.value)
    ensures Overlaps(l, from, until) <==> (from.Some? ==> l.endDate >= from.value) && (until.Some? ==> l.startDate <= until.value)
  {
    if (from.Some? ==> l.endDate >= from.value) && (until.Some? ==> l.startDate <= until.value) {
      var d := if from.Some? && l.startDate < from.value then from.value else l.startDate;
      assert OnLeave(l, d);
    }
  }

  lemma ListedIff<R>(m: map<int, R>, order: seq<int>, companyOf: R -> int, keep: R -> bool, scope: Scope, requested: Option<int>, id: int)
    requires scope.None? || requested.None? || requested == scope
    ensures var list := Listed(m, order, companyOf, keep, scope, requested);
            && list.Ok?
            && (id in list.value <==> && id in order && id in m && keep(m[id])
                                      && (scope.None? || scope == Some(companyOf(m[id])))
                                      && (requested.None? || requested == Some(companyOf(m[id]))))
  {
    var company := ResolveCompanyFilter(scope, requested).value;
    var p := (i: int) => Shown(m, companyOf, keep, company, i);
    assert id in Filter(order, p) <==> id in order && p(id);
  }

  /** The calendar lists exactly the approved leaves of the visible companies that overlap the range. */
  lemma ApprovedAreListed(m: map<int, Leaves.Leave>, order: seq<int>, from: Option<int>, until: Option<int>, text: Text,
                          scope: Scope, requested: Option<int>, id: int)
    requires scope.None? || requested.None? || requested == scope
    requires from.Some? && until.Some? ==> from.value <= until.value
    requires id in m ==> m[id].startDate <= m[id].endDate
    ensures ApprovedLeaves(m, order, from, until, text, scope, requested).Ok?
    ensures id in ApprovedLeaves(m, order, from, until, text, scope, requested).value
            <==> && id in order && id in m && m[id].status == Leaves.APPROVED && Overlaps(m[id], from, until)
                 && (scope.None? || scope == Some(m[id].companyId)) && (requested.None? || requested == Some(m[id].companyId))
  {
    if id in m {
      BoundsMeanOverlap(m[id], from, until);
    }
    var q := LeaveQuery(None, None, None, Some(Leaves.APPROVED), from, until);
    ListedIff(m, order, LeaveCompany, r => LeaveMatches(q, text, r), scope, requested, id);
  }

  /** A worker's list holds exactly that worker's leaves in scope that overlap the range. */
  lemma WorkerLeavesAreListed(m: map<int, Leaves.Leave>, order: seq<int>, workerId: int, from: Option<int>, until: Option<int>,
                              text: Text, scope: Scope, id: int)
    requires from.Some? && until.Some? ==> from.value <= until.value
    requires id in m ==> m[id].startDate <= m[id].endDate
    ensures LeavesOfWorker(m, order, workerId, from, until, text, scope).Ok?
    ensures id in LeavesOfWorker(m, order, workerId, from, until, text, scope).value
            <==> && id in order && id in m && m[id].workerId == workerId && Overlaps(m[id], from, until)
                 && (scope.None? || scope == Some(m[id].companyId))
  {
    if id in m {
      BoundsMeanOverlap(m[id], from, until);
    }
    var q := LeaveQuery(None, Some(workerId), None, None, from, until);
    ListedIff(m, order, LeaveCompany, r => LeaveMatches(q, text, r), scope, None, id);
  }

  /** A search holds exactly the leaves that meet every condition sent. */
  lemma SearchedAreListed(m: map<int, Leaves.Leave>, order: seq<int>, q: LeaveQuery, text: Text, scope: Scope,
                          requested: Option<int>, id: int)
    requires scope.None? || requested.None? || requested == scope
    requires q.from.Some? && q.until.Some? ==> q.from.value <= q.until.value
    requires id in m ==> m[id].startDate <= m[id].endDate
    ensures SearchLeaves(m, order, q, text, scope, requested).Ok?
    ensures id in SearchLeaves(m, order, q, text, scope, requested).value
            <==> && id in order && id in m && var l := m[id];
                 && (q.workerId.None? || q.workerId.value == l.workerId) && (q.typ.None? || q.typ.value == l.typ)
                 && (q.status.None? || q.status.value == l.status) && Overlaps(l, q.from, q.until)
                 && (scope.None? || scope.value == l.companyId) && (requested.None? || requested.value == l.companyId)
                 && (q.keyword.None? || q.keyword.value == "" || text.like(text.companyName(l.companyId), q.keyword.value)
                     || (l.reason.Some? && text.like(l.reason.value, q.keyword.value)))
  {
    if id in m {
      BoundsMeanOverlap(m[id], q.from, q.until);
    }
    ListedIff(m, order, LeaveCompany, r => LeaveMatches(q, text, r), scope, requested, id);
  }

  /** A range that runs backwards is not refused: it lists the leaves around the gap, although no day is in it. */
  lemma BackwardRangeListsAround(m: map<int, Leaves.Leave>, order: seq<int>, from: int, until: int, text: Text, id: int)
    requires until < from && id in m && id in order && m[id].status == Leaves.APPROVED
    ensures id in ApprovedLeaves(m, order, Some(from), Some(until), text, None, None).value
            <==> m[id].startDate <= until && from <= m[id].endDate
    ensures !Overlaps(m[id], Some(from), Some(until))
  {
  }

  /** A kiosk search holds exactly the kiosks that meet every condition sent. */
  lemma KiosksAreListed(m: map<int, Kiosks.Kiosk>, order: seq<int>, keyword: Option<string>, status: Option<string>, text: Text,
                        scope: Scope, requested: Option<int>, id: int)
    requires scope.None? || requested.None? || requested == scope
    ensures SearchKiosks(m, order, keyword, status, text, scope, requested).Ok?
    ensures id in SearchKiosks(m, order, keyword, status, text, scope, requested).value
            <==> && id in order && id in m && var k := m[id];
                 && (status.None? || status.value == "" || status.value == StatusName(k.status))
                 && (scope.None? || scope.value == k.companyId) && (requested.None? || requested.value == k.companyId)
                 && (keyword.None? || keyword.value == "" || (k.name.Some? && text.like(k.name.value, keyword.value))
                     || text.like(k.kioskId, keyword.value) || text.like(text.companyName(k.companyId), keyword.value))
  {
    ListedIff(m, order, KioskCompany, r => KioskMatches(keyword, status, text, r), scope, requested, id);
  }
}
