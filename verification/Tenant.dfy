/** The company scope of app/core/tenant.py: None for an administrator, Some(company) for a charger. */
module Tenant {
  import opened Prelude

  type Scope = Option<int>

  /** The refusals of the services a scope guards. */
  datatype Problem = NotFound | Forbidden | CompanyNotFound | WorkerNotFound | InvalidInput | Conflict

  /** What a request's session holds when its handler stops, the next id, and whether it returned normally. */
  datatype Handled<R> = Handled(rows: map<int, R>, nextId: int, ok: bool)

  /** assert_company lets the request through. */
  predicate InScope(scope: Scope, companyId: int) {
    scope.None? || companyId == scope.value
  }

  /** resolve_company_filter: the company a list is narrowed to, if any. */
  function ResolveCompanyFilter(scope: Scope, requested: Option<int>): (r: Result<Option<int>, Problem>)
    ensures r.Ok? <==> scope.None? || requested.None? || requested == scope
    ensures forall company :: InScope(scope, company) && (requested.None? || requested.value == company)
              <==> r.Ok? && (r.value.None? || r.value.value == company)
  {
    if scope.None? then Ok(requested)
    else if requested.Some? && requested.value != scope.value then Err(Forbidden)
    else Ok(scope)
  }
}
