/** The kiosk bindings of app/services/kiosk.py:65-109, edited in the session of one request. */
module Kiosks {
  import opened Prelude
  import opened Tenant

  datatype KioskStatus = IN_USE | FULL | OFFLINE

  datatype Kiosk = Kiosk(
    companyId: int, kioskId: string, name: Option<string>, location: Option<string>, capacity: nat, currentCount: nat,
    status: KioskStatus, assignee: Option<string>)

  datatype BindRequest = BindRequest(companyId: int, kioskId: string, name: Option<string>, location: Option<string>, capacity: nat)

  predicate Bound(rows: map<int, Kiosk>, companyId: int, kioskId: string) {
    exists id :: id in rows && rows[id].companyId == companyId && rows[id].kioskId == kioskId
  }

  function BindProblem(rows: map<int, Kiosk>, companies: set<int>, req: BindRequest): Option<Problem> {
    if req.companyId !in companies then Some(CompanyNotFound)
    else if Bound(rows, req.companyId, req.kioskId) then Some(Conflict)
    else None
  }

  /** A new kiosk is named after its id when the request gives no name. */
  function NewKiosk(req: BindRequest): Kiosk {
    var name := if req.name.Some? && req.name.value != "" then req.name.value else req.kioskId;
    Kiosk(req.companyId, req.kioskId, Some(name), req.location, req.capacity, 0, OFFLINE, None)
  }

  function AssignProblem(rows: map<int, Kiosk>, id: int, scope: Scope): Option<Problem> {
    if id !in rows then Some(NotFound) else if !InScope(scope, rows[id].companyId) then Some(Forbidden) else None
  }

  predicate MayUnbind(rows: map<int, Kiosk>, id: int, scope: Scope) {
    id in rows ==> InScope(scope, rows[id].companyId)
  }

  /** The endpoints of app/api/v1/kiosks.py that write. */
  datatype Request =
    | Bind(kiosk: BindRequest)
    | SetAssignee(id: int, assignee: Option<string>)
    | Unbind(id: int)

  function Handle(rows: map<int, Kiosk>, nextId: int, companies: set<int>, scope: Scope, req: Request): Handled<Kiosk> {
    match req
    case Bind(r) =>
      if !InScope(scope, r.companyId) || BindProblem(rows, companies, r).Some? then Handled(rows, nextId, false)
      else Handled(rows[nextId := NewKiosk(r)], nextId + 1, true)
    case SetAssignee(id, assignee) =>
      if AssignProblem(rows, id, scope).Some? then Handled(rows, nextId, false)
      else Handled(rows[id := rows[id].(assignee := assignee)], nextId, true)
    case Unbind(id) =>
      if MayUnbind(rows, id, scope) then Handled(rows - {id}, nextId, true) else Handled(rows, nextId, false)
  }

  /** uq_company_kiosk (migrations/V1__init_schema.sql:318). */
  ghost predicate KeysUnique(rows: map<int, Kiosk>) {
    forall a, b :: a in rows && b in rows && rows[a].companyId == rows[b].companyId && rows[a].kioskId == rows[b].kioskId
              ==> a == b
  }

  class KioskService {
    var rows: map<int, Kiosk>
    var nextId: int

    constructor (rows: map<int, Kiosk>, nextId: int)
      ensures this.rows == rows && this.nextId == nextId
    {
      this.rows, this.nextId := rows, nextId;
    }

    method Bind(companies: set<int>, req: BindRequest) returns (r: Result<int, Problem>)
      modifies this
      ensures match BindProblem(old(rows), companies, req)
              case Some(p) => r == Err(p) && rows == old(rows) && nextId == old(nextId)
              case None => r == Ok(old(nextId)) && rows == old(rows)[old(nextId) := NewKiosk(req)] && nextId == old(nextId) + 1
    {
      if req.companyId !in companies {
        return Err(CompanyNotFound);
      }
      if exists id :: id in rows && rows[id].companyId == req.companyId && rows[id].kioskId == req.kioskId {
        return Err(Conflict);
      }
      var name := req.kioskId;
      if req.name.Some? && req.name.value != "" {
        name := req.name.value;
      }
      rows := rows[nextId := Kiosk(req.companyId, req.kioskId, Some(name), req.location, req.capacity, 0, OFFLINE, None)];
      nextId := nextId + 1;
      r := Ok(nextId - 1);
    }

    /** The endpoints: binding asserts the company, the others leave it to the service. */
    method Serve(companies: set<int>, scope: Scope, req: Request) returns (ok: bool)
      modifies this
      ensures Handled(rows, nextId, ok) == Handle(old(rows), old(nextId), companies, scope, req)
    {
      match req {
        case Bind(kiosk) =>
          if !InScope(scope, kiosk.companyId) {
            return false;
          }
          var bound := Bind(companies, kiosk);
          ok := bound.Ok?;
        case SetAssignee(id, assignee) =>
          var changed := SetAssignee(id, assignee, scope);
          ok := changed.Ok?;
        case Unbind(id) =>
          var unbound := Unbind(id, scope);
          ok := unbound.Ok?;
      }
    }

    method SetAssignee(id: int, assignee: Option<string>, scope: Scope) returns (r: Result<Kiosk, Problem>)
      modifies this`rows
      ensures match AssignProblem(old(rows), id, scope)
              case Some(p) => r == Err(p) && rows == old(rows)
              case None => r == Ok(old(rows)[id].(assignee := assignee)) && rows == old(rows)[id := r.value]
    {
      if id !in rows {
        return Err(NotFound);
      }
      if !InScope(scope, rows[id].companyId) {
        return Err(Forbidden);
      }
      var kiosk := rows[id].(assignee := assignee);
      rows := rows[id := kiosk];
      r := Ok(kiosk);
    }

    method Unbind(id: int, scope: Scope) returns (r: Result<(), Problem>)
      modifies this`rows
      ensures r == if MayUnbind(old(rows), id, scope) then Ok(()) else Err(Forbidden)
      ensures rows == if r.Ok? then old(rows) - {id} else old(rows)
    {
      if id in rows {
        if !InScope(scope, rows[id].companyId) {
          return Err(Forbidden);
        }
        rows := rows - {id};
      }
      r := Ok(());
    }
  }

  /** What each writing endpoint does: when it is refused, what it stores, and that it stores nothing else. */
  lemma HandleMeans(rows: map<int, Kiosk>, nextId: int, companies: set<int>, scope: Scope, req: Request)
    requires nextId !in rows
    ensures var h := Handle(rows, nextId, companies, scope, req);
            && (!h.ok ==> h.rows == rows && h.nextId == nextId)
            && match req
               case Bind(r) =>
                 && (h.ok <==> (scope.None? || scope == Some(r.companyId)) && r.companyId in companies
                               && forall id :: id in rows ==> rows[id].companyId != r.companyId || rows[id].kioskId != r.kioskId)
                 && (h.ok ==>
                       && nextId in h.rows && h.rows - {nextId} == rows && h.nextId == nextId + 1
                       && var k := h.rows[nextId];
                          && k.companyId == r.companyId && k.kioskId == r.kioskId && k.location == r.location
                          && k.capacity == r.capacity && k.currentCount == 0 && k.status == OFFLINE && k.assignee.None?
                          && k.name == Some(if r.name.None? || r.name.value == "" then r.kioskId else r.name.value))
               case SetAssignee(id, assignee) =>
                 && (h.ok <==> id in rows && (scope.None? || scope == Some(rows[id].companyId)))
                 && (h.ok ==> h.rows.Keys == rows.Keys && h.rows[id].assignee == assignee
                              && h.rows[id].(assignee := rows[id].assignee) == rows[id]
                              && forall other :: other in rows && other != id ==> h.rows[other] == rows[other])
               case Unbind(id) =>
                 && (h.ok <==> id !in rows || scope.None? || scope == Some(rows[id].companyId))
                 && (h.ok ==> h.rows == rows - {id})
  {
  }
}
