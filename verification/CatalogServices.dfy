/** Serial coherence of the two cached services: app/core/cache.py, app/services/company.py and the cached part of
    app/services/job.py, one request at a time, committed or rolled back. */
module CatalogServices {
  import opened Prelude

  datatype Entry<M> = Entry(value: M, expiresAt: int)

  /** get_model, set_model and evict on one namespace.  A command that fails (`up` is false) is swallowed;
      `decodes` says whether the codec gives back what was stored or a miss. */
  class ModelCache<M> {
    var entries: map<int, Entry<M>>
    const decodes: bool

    constructor (decodes: bool)
      ensures this.decodes == decodes && entries == map[]
    {
      this.decodes, entries := decodes, map[];
    }

    method GetModel(key: int, now: nat, up: bool) returns (r: Option<M>)
      ensures r.Some? <==> up && decodes && key in entries && now < entries[key].expiresAt
      ensures r.Some? ==> r.value == entries[key].value
    {
      r := None;
      if up && key in entries && now < entries[key].expiresAt {
        r := if decodes then Some(entries[key].value) else None;
      }
    }

    method SetModel(key: int, value: M, now: nat, up: bool)
      modifies this
      ensures entries == if up then old(entries)[key := Entry(value, now + CACHE_TTL)] else old(entries)
    {
      if up {
        entries := entries[key := Entry(value, now + CACHE_TTL)];
      }
    }

    method Evict(key: int, up: bool)
      modifies this
      ensures entries == if up then old(entries) - {key} else old(entries)
    {
      if up {
        entries := entries - {key};
      }
    }
  }

  ghost predicate Hit<M>(cache: ModelCache<M>, key: int, at: nat, up: bool)
    reads cache
  {
    up && cache.decodes && key in cache.entries && at < cache.entries[key].expiresAt
  }

  datatype ServiceError = NotFound | Conflict

  // ---------------------------------------------------------------- companies

  datatype CompanyRow = CompanyRow(
    name: string, location: Option<string>, useFlag: bool, imagePath: Option<string>,
    templateId: Option<string>, templateData: Option<string>, updatedBy: Option<int>)

  datatype CompanyResponse = CompanyResponse(
    id: int, name: string, location: Option<string>, useFlag: bool, imagePath: Option<string>,
    templateId: Option<string>, templateData: Option<string>)

  datatype CompanyUpdate = CompanyUpdate(
    name: Option<string>, location: Option<string>, imagePath: Option<string>,
    templateId: Option<string>, templateData: Option<string>)

  function ToCompanyResponse(id: int, c: CompanyRow): CompanyResponse {
    CompanyResponse(id, c.name, c.location, c.useFlag, c.imagePath, c.templateId, c.templateData)
  }

  function OrElse<T>(sent: Option<T>, stored: Option<T>): Option<T> {
    if sent.Some? then sent else stored
  }

  /** Only the fields that were sent change. */
  function UpdatedCompany(c: CompanyRow, req: CompanyUpdate, actor: Option<int>): CompanyRow {
    CompanyRow(req.name.GetOr(c.name), OrElse(req.location, c.location), c.useFlag, OrElse(req.imagePath, c.imagePath),
               OrElse(req.templateId, c.templateId), OrElse(req.templateData, c.templateData), OrElse(actor, c.updatedBy))
  }

  /** Every field sent is stored in its own column, every other column is kept. */
  ghost predicate TakesSentFields(c: CompanyRow, req: CompanyUpdate, actor: Option<int>, row: CompanyRow) {
    && SentOrKept(req.name, c.name, row.name)
    && SentOrKeptOptional(req.location, c.location, row.location)
    && SentOrKeptOptional(req.imagePath, c.imagePath, row.imagePath)
    && SentOrKeptOptional(req.templateId, c.templateId, row.templateId)
    && SentOrKeptOptional(req.templateData, c.templateData, row.templateData)
    && SentOrKeptOptional(actor, c.updatedBy, row.updatedBy)
    && row.useFlag == c.useFlag
  }

  /** The response shows each column under its own name. */
  ghost predicate Shows(r: CompanyResponse, id: int, c: CompanyRow) {
    && r.id == id && r.name == c.name && r.location == c.location && r.useFlag == c.useFlag && r.imagePath == c.imagePath
    && r.templateId == c.templateId && r.templateData == c.templateData
  }

  lemma CompanyUpdateMeans(id: int, c: CompanyRow, req: CompanyUpdate, actor: Option<int>)
    ensures var row := UpdatedCompany(c, req, actor);
            TakesSentFields(c, req, actor, row) && Shows(ToCompanyResponse(id, row), id, row)
  {
  }

  /** The field-by-field assignments of `update`. */
  method AssignCompany(c: CompanyRow, req: CompanyUpdate, actor: Option<int>) returns (row: CompanyRow)
    ensures row == UpdatedCompany(c, req, actor)
  {
    row := c.(name := req.name.GetOr(c.name));
    row := row.(location := OrElse(req.location, row.location));
    row := row.(imagePath := OrElse(req.imagePath, row.imagePath));
    row := row.(templateId := OrElse(req.templateId, row.templateId));
    row := row.(templateData := OrElse(req.templateData, row.templateData));
    row := row.(updatedBy := OrElse(actor, row.updatedBy));
  }

  class CompanyService {
    const cache: ModelCache<CompanyResponse>
    var rows: map<int, CompanyRow>   // committed
    var nextId: int

    constructor (cache: ModelCache<CompanyResponse>, rows: map<int, CompanyRow>, nextId: int)
      requires cache.entries == map[] && forall id :: id in rows ==> id < nextId
      ensures Valid() && Coherent() && this.cache == cache && this.rows == rows && this.nextId == nextId
    {
      this.cache, this.rows, this.nextId := cache, rows, nextId;
    }

    ghost predicate Valid()
      reads this
    {
      forall id :: id in rows ==> id < nextId
    }

    /** Every cached company, expired or not, is the response of its committed row. */
    ghost predicate Coherent()
      reads this, cache
    {
      forall id :: id in cache.entries ==> id in rows && cache.entries[id].value == ToCompanyResponse(id, rows[id])
    }

    /** With a coherent cache `get` answers what a direct read of the database would. */
    method Get(id: int, getAt: nat, getUp: bool, setAt: nat, setUp: bool) returns (r: Result<CompanyResponse, ServiceError>)
      requires Valid() && Coherent()
      modifies cache
      ensures Valid() && Coherent()
      ensures r == if id in rows then Ok(ToCompanyResponse(id, rows[id])) else Err(NotFound)
      ensures cache.entries == if r.Ok? && !old(Hit(cache, id, getAt, getUp)) && setUp
                               then old(cache.entries)[id := Entry(r.value, setAt + CACHE_TTL)] else old(cache.entries)
    {
      var hit := cache.GetModel(id, getAt, getUp);
      if hit.Some? {
        return Ok(hit.value);
      }
      if id !in rows {
        return Err(NotFound);
      }
      var resp := ToCompanyResponse(id, rows[id]);
      cache.SetModel(id, resp, setAt, setUp);
      r := Ok(resp);
    }

    method Create(name: string, location: Option<string>, imagePath: Option<string>, templateId: Option<string>,
                  templateData: Option<string>, actor: Option<int>, commits: bool)
      returns (r: Result<CompanyResponse, ServiceError>)
      requires Valid() && Coherent()
      modifies this
      ensures Valid() && Coherent()
      ensures r.Err? <==> exists id :: id in old(rows) && old(rows)[id].name == name
      ensures r.Err? || !commits ==> rows == old(rows)
      ensures r.Ok? ==> r.value == CompanyResponse(old(nextId), name, location, true, imagePath, templateId, templateData)
      ensures r.Ok? && commits ==>
                old(nextId) in rows && rows - {old(nextId)} == old(rows) && ToCompanyResponse(old(nextId), rows[old(nextId)]) == r.value
                && rows[old(nextId)].updatedBy == actor
    {
      if exists id :: id in rows && rows[id].name == name {
        return Err(Conflict);
      }
      var row := CompanyRow(name, location, true, imagePath, templateId, templateData, actor);
      var id := nextId;
      nextId := nextId + 1;
      assert id !in rows;
      if commits {
        rows := rows[id := row];
      }
      r := Ok(ToCompanyResponse(id, row));
    }

    /** Evicts, then commits.  Coherence survives exactly when the eviction is applied or there is nothing to evict. */
    method Update(id: int, req: CompanyUpdate, actor: Option<int>, evictUp: bool, commits: bool)
      returns (r: Result<CompanyResponse, ServiceError>)
      requires Valid() && Coherent()
      modifies this, cache
      ensures Valid()
      ensures id !in old(rows) ==> r == Err(NotFound) && rows == old(rows) && Coherent()
      ensures id in old(rows) ==>
                var row := UpdatedCompany(old(rows)[id], req, actor);
                && r == Ok(ToCompanyResponse(id, row)) && TakesSentFields(old(rows)[id], req, actor, row) && Shows(r.value, id, row)
                && rows == (if commits then old(rows)[id := row] else old(rows))
                && (Coherent() <==> evictUp || !commits || id !in old(cache.entries)
                                    || ToCompanyResponse(id, row) == ToCompanyResponse(id, old(rows)[id]))
    {
      if id !in rows {
        return Err(NotFound);
      }
      var row := AssignCompany(rows[id], req, actor);
      cache.Evict(id, evictUp);
      if commits {
        rows := rows[id := row];
      }
      r := Ok(ToCompanyResponse(id, row));
    }

    method Deactivate(id: int, actor: Option<int>, evictUp: bool, commits: bool) returns (r: Result<(), ServiceError>)
      requires Valid() && Coherent()
      modifies this, cache
      ensures Valid()
      ensures id !in old(rows) ==> r == Err(NotFound) && rows == old(rows) && Coherent()
      ensures id in old(rows) ==>
                && r == Ok(())
                && rows == (if commits then old(rows)[id := old(rows)[id].(useFlag := false, updatedBy := OrElse(actor, old(rows)[id].updatedBy))]
                            else old(rows))
                && (Coherent() <==> evictUp || !commits || id !in old(cache.entries) || !old(rows)[id].useFlag)
    {
      if id !in rows {
        return Err(NotFound);
      }
      var row := rows[id].(useFlag := false);
      if actor.Some? { row := row.(updatedBy := actor); }
      cache.Evict(id, evictUp);
      if commits {
        rows := rows[id := row];
      }
      r := Ok(());
    }
  }

  // ---------------------------------------------------------------- job standards

  /** The standard's own columns. */
  datatype Scalars = Scalars(
    companyId: int, name: string, useFlag: bool, routineStartTime: Option<nat>, workTime: nat, restTime: nat,
    startMessage: Option<string>, endMessage: Option<string>, context: Option<string>, forJournal: bool)

  datatype StandardRow<T> = StandardRow(scalars: Scalars, processes: seq<T>)

  datatype StandardResponse<T> = StandardResponse(id: int, companyName: Option<string>, scalars: Scalars, processes: seq<T>)

  datatype StandardUpdate = StandardUpdate(
    name: Option<string>, routineStartTime: Option<nat>, workTime: Option<nat>, restTime: Option<nat>,
    startMessage: Option<string>, endMessage: Option<string>, context: Option<string>, forJournal: Option<bool>)

  function UpdatedScalars(s: Scalars, req: StandardUpdate): Scalars {
    Scalars(s.companyId, req.name.GetOr(s.name), s.useFlag, OrElse(req.routineStartTime, s.routineStartTime),
            req.workTime.GetOr(s.workTime), req.restTime.GetOr(s.restTime), OrElse(req.startMessage, s.startMessage),
            OrElse(req.endMessage, s.endMessage), OrElse(req.context, s.context), req.forJournal.GetOr(s.forJournal))
  }

  function CompanyName(companies: map<int, string>, id: int): Option<string> {
    if id in companies then Some(companies[id]) else None
  }

  function ToStandardResponse<T>(id: int, row: StandardRow<T>, companies: map<int, string>): StandardResponse<T> {
    StandardResponse(id, CompanyName(companies, row.scalars.companyId), row.scalars, row.processes)
  }

  /** Every field sent is stored in its own column, every other column is kept. */
  ghost predicate TakesSentScalars(s: Scalars, req: StandardUpdate, s': Scalars) {
    && SentOrKept(req.name, s.name, s'.name)
    && SentOrKeptOptional(req.routineStartTime, s.routineStartTime, s'.routineStartTime)
    && SentOrKept(req.workTime, s.workTime, s'.workTime)
    && SentOrKept(req.restTime, s.restTime, s'.restTime)
    && SentOrKeptOptional(req.startMessage, s.startMessage, s'.startMessage)
    && SentOrKeptOptional(req.endMessage, s.endMessage, s'.endMessage)
    && SentOrKeptOptional(req.context, s.context, s'.context)
    && SentOrKept(req.forJournal, s.forJournal, s'.forJournal)
    && s'.companyId == s.companyId && s'.useFlag == s.useFlag
  }

  lemma StandardUpdateMeans<T>(id: int, row: StandardRow<T>, req: StandardUpdate, companies: map<int, string>)
    ensures TakesSentScalars(row.scalars, req, UpdatedScalars(row.scalars, req))
    ensures var r := ToStandardResponse(id, row, companies);
            && r.id == id && r.scalars == row.scalars && r.processes == row.processes
            && (row.scalars.companyId in companies ==> r.companyName == Some(companies[row.scalars.companyId]))
            && (row.scalars.companyId !in companies ==> r.companyName.None?)
  {
  }

  /** The field-by-field assignments of `update`. */
  method AssignScalars(stored: Scalars, req: StandardUpdate) returns (s: Scalars)
    ensures s == UpdatedScalars(stored, req)
  {
    s := stored.(name := req.name.GetOr(stored.name));
    s := s.(routineStartTime := OrElse(req.routineStartTime, s.routineStartTime));
    s := s.(workTime := req.workTime.GetOr(s.workTime));
    s := s.(restTime := req.restTime.GetOr(s.restTime));
    s := s.(startMessage := OrElse(req.startMessage, s.startMessage));
    s := s.(endMessage := OrElse(req.endMessage, s.endMessage));
    s := s.(context := OrElse(req.context, s.context));
    s := s.(forJournal := req.forJournal.GetOr(s.forJournal));
  }

  class JobStandardService<T(==)> {
    const cache: ModelCache<StandardResponse<T>>
    var rows: map<int, StandardRow<T>>   // committed
    var companies: map<int, string>      // committed names

    constructor (cache: ModelCache<StandardResponse<T>>, rows: map<int, StandardRow<T>>, companies: map<int, string>)
      requires cache.entries == map[]
      ensures Coherent() && this.cache == cache && this.rows == rows && this.companies == companies
    {
      this.cache, this.rows, this.companies := cache, rows, companies;
    }

    /** What every request keeps: cached scalars are the committed ones. */
    ghost predicate ScalarsCoherent()
      reads this, cache
    {
      forall id :: id in cache.entries ==>
        id in rows && cache.entries[id].value.id == id && cache.entries[id].value.scalars == rows[id].scalars
    }

    ghost predicate Coherent()
      reads this, cache
    {
      forall id :: id in cache.entries ==> id in rows && cache.entries[id].value == ToStandardResponse(id, rows[id], companies)
    }

    method Get(id: int, getAt: nat, getUp: bool, setAt: nat, setUp: bool) returns (r: Result<StandardResponse<T>, ServiceError>)
      requires ScalarsCoherent()
      modifies cache
      ensures ScalarsCoherent() && (old(Coherent()) ==> Coherent())
      ensures r.Ok? <==> id in rows
      ensures r.Ok? ==> r.value.id == id && r.value.scalars == rows[id].scalars
      ensures cache.entries == if r.Ok? && !old(Hit(cache, id, getAt, getUp)) && setUp
                               then old(cache.entries)[id := Entry(r.value, setAt + CACHE_TTL)] else old(cache.entries)
      ensures r.Ok? && (old(Coherent()) || !getUp || !cache.decodes || id !in old(cache.entries)) ==>
                r.value == ToStandardResponse(id, rows[id], companies)
    {
      var hit := cache.GetModel(id, getAt, getUp);
      if hit.Some? {
        return Ok(hit.value);
      }
      if id !in rows {
        return Err(NotFound);
      }
      var resp := ToStandardResponse(id, rows[id], companies);
      cache.SetModel(id, resp, setAt, setUp);
      r := Ok(resp);
    }

    method Update(id: int, req: StandardUpdate, evictUp: bool, commits: bool) returns (r: Result<StandardResponse<T>, ServiceError>)
      requires ScalarsCoherent()
      modifies this`rows, cache
      ensures id !in old(rows) ==> r == Err(NotFound) && rows == old(rows) && ScalarsCoherent()
      ensures id in old(rows) ==>
                var row := old(rows)[id].(scalars := UpdatedScalars(old(rows)[id].scalars, req));
                && r == Ok(ToStandardResponse(id, row, companies)) && TakesSentScalars(old(rows)[id].scalars, req, r.value.scalars)
                && rows == (if commits then old(rows)[id := row] else old(rows))
                && (ScalarsCoherent() <==> evictUp || !commits || id !in old(cache.entries) || row.scalars == old(rows)[id].scalars)
    {
      if id !in rows {
        return Err(NotFound);
      }
      var s := AssignScalars(rows[id].scalars, req);
      var row := rows[id].(scalars := s);
      cache.Evict(id, evictUp);
      if commits {
        rows := rows[id := row];
      }
      r := Ok(ToStandardResponse(id, row, companies));
    }

    method Deactivate(id: int, evictUp: bool, commits: bool) returns (r: Result<(), ServiceError>)
      requires ScalarsCoherent()
      modifies this`rows, cache
      ensures id !in old(rows) ==> r == Err(NotFound) && rows == old(rows) && ScalarsCoherent()
      ensures id in old(rows) ==>
                var row := old(rows)[id].(scalars := old(rows)[id].scalars.(useFlag := false));
                && r == Ok(())
                && rows == (if commits then old(rows)[id := row] else old(rows))
                && (ScalarsCoherent() <==> evictUp || !commits || id !in old(cache.entries) || !old(rows)[id].scalars.useFlag)
    {
      if id !in rows {
        return Err(NotFound);
      }
      var row := rows[id].(scalars := rows[id].scalars.(useFlag := false));
      cache.Evict(id, evictUp);
      if commits {
        rows := rows[id := row];
      }
      r := Ok(());
    }

    /** The committed effect of a process sync: no eviction, so the cached process list goes stale exactly when
        the standard is cached and the list changes. */
    method CommitSync(id: int, synced: seq<T>)
      requires id in rows && ScalarsCoherent()
      modifies this`rows
      ensures rows == old(rows)[id := old(rows)[id].(processes := synced)]
      ensures ScalarsCoherent()
      ensures old(Coherent()) ==> (Coherent() <==> id !in cache.entries || synced == old(rows)[id].processes)
    {
      rows := rows[id := rows[id].(processes := synced)];
    }

    /** The committed effect of a company rename, which evicts no standard. */
    method CommitRename(company: int, name: string)
      requires company in companies && ScalarsCoherent()
      modifies this`companies
      ensures companies == old(companies)[company := name]
      ensures ScalarsCoherent()
      ensures old(Coherent()) ==>
                (Coherent() <==> name == old(companies)[company]
                                 || forall id :: id in cache.entries ==> rows[id].scalars.companyId != company)
    {
      companies := companies[company := name];
    }
  }
}
