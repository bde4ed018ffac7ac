/** The leave requests of app/services/leave.py:148-193, edited in the session of one request. */
module Leaves {
  import opened Prelude
  import opened Tenant

  datatype LeaveType = ANNUAL | MONTHLY | SICK | OTHER
  datatype LeaveStatus = PENDING | APPROVED | REJECTED

  /** Dates are day numbers. */
  datatype Leave = Leave(
    workerId: int, companyId: int, typ: LeaveType, startDate: int, endDate: int, days: int, status: LeaveStatus,
    reason: Option<string>, createdBy: Option<int>)

  datatype CreateRequest = CreateRequest(
    workerId: int, companyId: int, typ: LeaveType, startDate: int, endDate: int, reason: Option<string>, autoApprove: bool)

  predicate Truthy(s: Option<string>) {
    s.Some? && s.value != ""
  }

  function Appended(reason: Option<string>, comment: Option<string>): Option<string> {
    if !Truthy(comment) then reason
    else if Truthy(reason) then Some(reason.value + " \U{B7} " + comment.value)
    else comment
  }

  function CreateProblem(workers: set<int>, companies: set<int>, req: CreateRequest): Option<Problem> {
    if req.endDate < req.startDate then Some(InvalidInput)
    else if req.workerId !in workers then Some(WorkerNotFound)
    else if req.companyId !in companies then Some(CompanyNotFound)
    else None
  }

  function NewLeave(req: CreateRequest, actor: int): Leave {
    Leave(req.workerId, req.companyId, req.typ, req.startDate, req.endDate, req.endDate - req.startDate + 1,
          if req.autoApprove then APPROVED else PENDING, req.reason, Some(actor))
  }

  function DecideProblem(rows: map<int, Leave>, id: int, scope: Scope): Option<Problem> {
    if id !in rows then Some(NotFound) else if !InScope(scope, rows[id].companyId) then Some(Forbidden) else None
  }

  /** Deleting what is not there succeeds. */
  predicate MayDelete(rows: map<int, Leave>, id: int, scope: Scope) {
    id in rows ==> InScope(scope, rows[id].companyId)
  }

  /** A decided leave: the status sent, the comment joined to the reason, everything else as it was. */
  ghost predicate DecidedAs(l: Leave, l': Leave, status: LeaveStatus, comment: Option<string>) {
    && l'.status == status
    && l'.workerId == l.workerId && l'.companyId == l.companyId && l'.typ == l.typ && l'.startDate == l.startDate
    && l'.endDate == l.endDate && l'.days == l.days && l'.createdBy == l.createdBy
    && (comment.None? || comment.value == "" ==> l'.reason == l.reason)
    && (comment.Some? && comment.value != "" && (l.reason.None? || l.reason.value == "") ==> l'.reason == comment)
    && (comment.Some? && comment.value != "" && l.reason.Some? && l.reason.value != "" ==>
          && l'.reason.Some? && |l'.reason.value| == |l.reason.value| + 3 + |comment.value|
          && l.reason.value <= l'.reason.value && l'.reason.value[|l.reason.value| + 3..] == comment.value
          && l'.reason.value[|l.reason.value|..|l.reason.value| + 3] == " \U{B7} ")
  }

  /** A leave as requested, by this actor. */
  ghost predicate RequestedAs(req: CreateRequest, actor: int, l: Leave) {
    && l.workerId == req.workerId && l.companyId == req.companyId && l.typ == req.typ && l.startDate == req.startDate
    && l.endDate == req.endDate && l.days == req.endDate - req.startDate + 1 && l.reason == req.reason && l.createdBy == Some(actor)
    && (l.status == APPROVED <==> req.autoApprove) && (l.status == PENDING <==> !req.autoApprove)
  }

  /** The endpoints of app/api/v1/leaves.py that write. */
  datatype Request =
    | Create(leave: CreateRequest, actor: int)
    | Decide(id: int, status: LeaveStatus, comment: Option<string>)
    | Delete(id: int)

  function Handle(rows: map<int, Leave>, nextId: int, workers: set<int>, companies: set<int>, scope: Scope, req: Request): Handled<Leave> {
    match req
    case Create(r, actor) =>
      if !InScope(scope, r.companyId) || CreateProblem(workers, companies, r).Some? then Handled(rows, nextId, false)
      else Handled(rows[nextId := NewLeave(r, actor)], nextId + 1, true)
    case Decide(id, status, comment) =>
      if DecideProblem(rows, id, scope).Some? then Handled(rows, nextId, false)
      else Handled(rows[id := rows[id].(status := status, reason := Appended(rows[id].reason, comment))], nextId, true)
    case Delete(id) =>
      if MayDelete(rows, id, scope) then Handled(rows - {id}, nextId, true) else Handled(rows, nextId, false)
  }

  class LeaveService {
    var rows: map<int, Leave>
    var nextId: int

    constructor (rows: map<int, Leave>, nextId: int)
      ensures this.rows == rows && this.nextId == nextId
    {
      this.rows, this.nextId := rows, nextId;
    }

    method Create(workers: set<int>, companies: set<int>, req: CreateRequest, actor: int) returns (r: Result<int, Problem>)
      modifies this
      ensures match CreateProblem(workers, companies, req)
              case Some(p) => r == Err(p) && rows == old(rows) && nextId == old(nextId)
              case None => r == Ok(old(nextId)) && rows == old(rows)[old(nextId) := NewLeave(req, actor)] && nextId == old(nextId) + 1
    {
      if req.endDate < req.startDate {
        return Err(InvalidInput);
      }
      if req.workerId !in workers {
        return Err(WorkerNotFound);
      }
      if req.companyId !in companies {
        return Err(CompanyNotFound);
      }
      var days := req.endDate - req.startDate + 1;
      var leave := Leave(req.workerId, req.companyId, req.typ, req.startDate, req.endDate, days,
                         if req.autoApprove then APPROVED else PENDING, req.reason, Some(actor));
      rows := rows[nextId := leave];
      nextId := nextId + 1;
      r := Ok(nextId - 1);
    }

    /** The endpoints: creation asserts the company, the others leave it to the service. */
    method Serve(workers: set<int>, companies: set<int>, scope: Scope, req: Request) returns (ok: bool)
      modifies this
      ensures Handled(rows, nextId, ok) == Handle(old(rows), old(nextId), workers, companies, scope, req)
    {
      match req {
        case Create(leave, actor) =>
          if !InScope(scope, leave.companyId) {
            return false;
          }
          var created := Create(workers, companies, leave, actor);
          ok := created.Ok?;
        case Decide(id, status, comment) =>
          var decided := Decide(id, status, comment, scope);
          ok := decided.Ok?;
        case Delete(id) =>
          var deleted := Delete(id, scope);
          ok := deleted.Ok?;
      }
    }

    method Decide(id: int, status: LeaveStatus, comment: Option<string>, scope: Scope) returns (r: Result<Leave, Problem>)
      modifies this`rows
      ensures match DecideProblem(old(rows), id, scope)
              case Some(p) => r == Err(p) && rows == old(rows)
              case None =>
                r == Ok(old(rows)[id].(status := status, reason := Appended(old(rows)[id].reason, comment)))
                && rows == old(rows)[id := r.value]
    {
      if id !in rows {
        return Err(NotFound);
      }
      var leave := rows[id];
      if !InScope(scope, leave.companyId) {
        return Err(Forbidden);
      }
      leave := leave.(status := status);
      if comment.Some? && comment.value != "" {
        leave := leave.(reason := Some(if Truthy(leave.reason) then leave.reason.value + " \U{B7} " + comment.value else comment.value));
      }
      rows := rows[id := leave];
      r := Ok(leave);
    }

    method Delete(id: int, scope: Scope) returns (r: Result<(), Problem>)
      modifies this`rows
      ensures r == if MayDelete(old(rows), id, scope) then Ok(()) else Err(Forbidden)
      ensures rows == if r.Ok? then old(rows) - {id} else old(rows)
    {
      if id in rows {
        if !InScope(scope, rows[id].companyId) {
          return Err(Forbidden);
        }
        rows := rows - {id};
      }
      r := Ok(());
    }
  }

  /** What each writing endpoint does: when it is refused, what it stores, and that it stores nothing else. */
  lemma HandleMeans(rows: map<int, Leave>, nextId: int, workers: set<int>, companies: set<int>, scope: Scope, req: Request)
    requires nextId !in rows
    ensures var h := Handle(rows, nextId, workers, companies, scope, req);
            && (!h.ok ==> h.rows == rows && h.nextId == nextId)
            && match req
               case Create(r, actor) =>
                 && (h.ok <==> (scope.None? || scope == Some(r.companyId)) && r.startDate <= r.endDate
                               && r.workerId in workers && r.companyId in companies)
                 && (h.ok ==> nextId in h.rows && h.rows - {nextId} == rows && h.nextId == nextId + 1
                              && RequestedAs(r, actor, h.rows[nextId]))
               case Decide(id, status, comment) =>
                 && (h.ok <==> id in rows && (scope.None? || scope == Some(rows[id].companyId)))
                 && (h.ok ==> h.rows.Keys == rows.Keys && DecidedAs(rows[id], h.rows[id], status, comment)
                              && forall other :: other in rows && other != id ==> h.rows[other] == rows[other])
               case Delete(id) =>
                 && (h.ok <==> id !in rows || scope.None? || scope == Some(rows[id].companyId))
                 && (h.ok ==> h.rows == rows - {id})
  {
    if req.Decide? && req.id in rows {
      var reason := Appended(rows[req.id].reason, req.comment);
      if Truthy(req.comment) && Truthy(rows[req.id].reason) {
        var r, c := rows[req.id].reason.value, req.comment.value;
        assert reason.value == r + " \U{B7} " + c;
        assert reason.value[|r| + 3..] == c && reason.value[|r|..|r| + 3] == " \U{B7} ";
      }
    }
  }

  /** A non-empty reason is only ever extended. */
  ghost predicate Extends(l: Leave, l': Leave) {
    && l'.workerId == l.workerId && l'.companyId == l.companyId && l'.typ == l.typ && l'.startDate == l.startDate
    && l'.endDate == l.endDate && l'.days == l.days && l'.createdBy == l.createdBy
    && (Truthy(l.reason) ==> l'.reason.Some? && l.reason.value <= l'.reason.value)
  }
}
