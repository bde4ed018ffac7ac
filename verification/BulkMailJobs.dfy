/** The life of a bulk mail job: create_job, mark_sending, complete_job and the background runner
    (app/services/document.py:436-492 and 562-582) behind the endpoint of app/api/v1/work_journals.py:109-136. */
module BulkMailJobs {
  import opened Prelude
  import BulkMail

  datatype Status = QUEUED | SENDING | SUCCESS | FAILED

  datatype Job = Job(
    companyId: int, day: int, recipient: string, format: string, requestedBy: Option<int>,
    status: Status, scheduleCount: int, truncated: bool, messageId: Option<string>, errorMessage: Option<string>,
    startedAt: Option<int>, finishedAt: Option<int>)

  function NewJob(companyId: int, day: int, recipient: string, format: string, requestedBy: Option<int>): Job {
    Job(companyId, day, recipient, format, requestedBy, QUEUED, 0, false, None, None, None, None)
  }

  function Marked(j: Job, now: int): Job {
    j.(status := SENDING, startedAt := Some(now))
  }

  /** Any failure of `send` becomes the job's reason, cut to 1000 characters. */
  function Completed(j: Job, outcome: BulkMail.SendOutcome, now: int): Job {
    match outcome
    case Sent(count, messageId, truncated) =>
      j.(scheduleCount := count, messageId := messageId, truncated := truncated, status := SUCCESS, finishedAt := Some(now))
    case Raised(error) =>
      j.(status := FAILED, errorMessage := Some(if |error| > 1000 then error[..1000] else error), finishedAt := Some(now))
  }

  // ---------------------------------------------------------------- the system: any number of jobs, any interleaving

  /** What complete_job finds: the database, the schedules its query returns, the renderer and the mail provider. */
  datatype Reading = Reading(tables: BulkMail.Tables, rows: seq<BulkMail.ScheduleRow>, render: BulkMail.Renderer, mailer: BulkMail.Mailer)

  /** How far complete_job and the second commit get: nothing sent, `send` over but the commit lost, or committed. */
  datatype Reach = BeforeSend | AfterSend | Committed

  datatype Attempt = Attempt(reading: Reading, reach: Reach, outcome: BulkMail.SendOutcome, taken: seq<BulkMail.Mail>)

  /** The committed jobs, the runners not yet started and those past their first commit; for the record, what each
      runner sent and with what, and the mails the provider took for each job. */
  datatype State = State(
    now: int, jobs: map<int, Job>, nextId: int, queue: set<int>, running: set<int>,
    attempts: map<int, Attempt>, mails: map<int, seq<BulkMail.Mail>>)

  datatype Event =
    | Tick(ticks: nat)
    /** A request: the commit may fail, and the process may die before the runner is enqueued. */
    | Post(companyId: int, day: int, recipient: string, format: string, requestedBy: Option<int>, commits: bool, survives: bool)
    /** The runner up to its first commit; `ok` is false when anything raises or the process dies. */
    | Start(id: int, ok: bool)
    /** The runner from there to its second commit. */
    | Finish(id: int, reading: Reading, reach: Reach)

  function MailsOf(s: State, id: int): seq<BulkMail.Mail> {
    if id in s.mails then s.mails[id] else []
  }

  /** What complete_job passes to send from the row, besides the company. */
  datatype Order = Order(recipient: string, day: int, format: string)

  function OrderOf(j: Job): Order {
    Order(j.recipient, j.day, j.format)
  }

  function SendOf(o: Order, r: Reading): (BulkMail.SendOutcome, seq<BulkMail.Mail>) {
    BulkMail.SendResult(r.rows, o.recipient, o.day, o.format, r.render, r.mailer)
  }

  function AttemptOf(o: Order, r: Reading, reach: Reach): Attempt {
    var (outcome, taken) := SendOf(o, r);
    Attempt(r, reach, outcome, taken)
  }

  function Apply(s: State, e: Event): State {
    match e
    case Tick(d) => s.(now := s.now + d)
    case Post(company, day, recipient, format, requester, commits, survives) =>
      if commits then
        s.(jobs := s.jobs[s.nextId := NewJob(company, day, recipient, format, requester)], nextId := s.nextId + 1,
           queue := if survives then s.queue + {s.nextId} else s.queue)
      else s.(nextId := s.nextId + 1)
    case Start(id, ok) =>
      if id !in s.queue then s
      else if ok && id in s.jobs then
        s.(queue := s.queue - {id}, jobs := s.jobs[id := Marked(s.jobs[id], s.now)], running := s.running + {id})
      else s.(queue := s.queue - {id})
    case Finish(id, reading, reach) =>
      if id !in s.running then s
      else if id !in s.jobs || reach.BeforeSend? then s.(running := s.running - {id})
      else
        Finished(s, id, AttemptOf(OrderOf(s.jobs[id]), reading, reach))
  }

  function Finished(s: State, id: int, a: Attempt): State
    requires id in s.jobs
  {
    s.(running := s.running - {id}, attempts := s.attempts[id := a], mails := s.mails[id := MailsOf(s, id) + a.taken],
       jobs := if a.reach.Committed? then s.jobs[id := Completed(s.jobs[id], a.outcome, s.now)] else s.jobs)
  }

  /** The rows are an answer of send's query for the job, in a database whose keys hold. */
  ghost predicate AnswersQuery(r: Reading, j: Job) {
    && BulkMail.ForeignKeysHold(r.tables) && BulkMail.KeysUnique(r.tables)
    && BulkMail.Ordered(r.rows, BulkMail.SendRows(r.tables, j.companyId, j.day))
  }

  ghost predicate Possible(s: State, e: Event) {
    e.Finish? && e.id in s.jobs ==> AnswersQuery(e.reading, s.jobs[e.id])
  }

  ghost predicate IsRun(s: State, events: seq<Event>)
    decreases |events|
  {
    events == [] || (Possible(s, events[0]) && IsRun(Apply(s, events[0]), events[1..]))
  }

  function After(s: State, events: seq<Event>): State
    decreases |events|
  {
    if events == [] then s else After(Apply(s, events[0]), events[1..])
  }

  /** What a committed row looks like in each status. */
  ghost predicate Shape(j: Job, now: int) {
    && (j.startedAt.Some? <==> j.status != QUEUED)
    && (j.finishedAt.Some? <==> j.status == SUCCESS || j.status == FAILED)
    && (j.startedAt.Some? ==> j.startedAt.value <= now)
    && (j.finishedAt.Some? ==> j.startedAt.value <= j.finishedAt.value <= now)
    && (j.status != SUCCESS ==> j.scheduleCount == 0 && j.messageId.None? && !j.truncated)
    && (j.errorMessage.Some? <==> j.status == FAILED)
  }

  /** The row and the mails are what the attempt made of them. */
  ghost predicate Records(j: Job, a: Attempt, mails: seq<BulkMail.Mail>) {
    && mails == a.taken && |a.taken| <= 1 && (a.outcome.Raised? ==> a.taken == [])
    && match a.reach
       case BeforeSend => false
       case AfterSend => j.status == SENDING
       case Committed => j == Completed(j, a.outcome, j.finishedAt.GetOr(0))
  }

  /** What the attempt took for the outcome of send, and for mails, is what send makes of its reading. */
  ghost predicate Genuine(j: Job, a: Attempt) {
    AnswersQuery(a.reading, j) && a == AttemptOf(OrderOf(j), a.reading, a.reach)
  }

  ghost predicate AllGenuine(s: State) {
    forall id :: id in s.attempts ==> id in s.jobs && Genuine(s.jobs[id], s.attempts[id])
  }

  ghost predicate Inv(s: State) {
    && (forall id :: id in s.jobs ==> id < s.nextId && Shape(s.jobs[id], s.now))
    && (forall id :: id in s.queue ==> id in s.jobs && s.jobs[id].status == QUEUED)
    && (forall id :: id in s.running ==> id in s.jobs && s.jobs[id].status == SENDING && id !in s.attempts)
    && (forall id :: id in s.attempts ==> id in s.jobs && Records(s.jobs[id], s.attempts[id], MailsOf(s, id)))
    && (forall id :: id !in s.attempts ==> MailsOf(s, id) == [])
    && (forall id :: id in s.jobs && id !in s.attempts ==> s.jobs[id].status == QUEUED || s.jobs[id].status == SENDING)
  }

  function Rank(st: Status): nat {
    match st
    case QUEUED => 0
    case SENDING => 1
    case SUCCESS => 2
    case FAILED => 2
  }

  /** A committed row stays as it is or takes the next step of its life. */
  ghost predicate Advances(j: Job, j': Job) {
    j' == j || (Rank(j'.status) == Rank(j.status) + 1
                && j'.(status := j.status, scheduleCount := j.scheduleCount, truncated := j.truncated, messageId := j.messageId,
                       errorMessage := j.errorMessage, startedAt := j.startedAt, finishedAt := j.finishedAt) == j
                && (j.startedAt.Some? ==> j'.startedAt == j.startedAt))
  }

  lemma StepsKeepShape(j: Job, outcome: BulkMail.SendOutcome, now: int)
    requires Shape(j, now)
    ensures j.status == QUEUED ==> Shape(Marked(j, now), now) && Advances(j, Marked(j, now))
    ensures j.status == SENDING ==> Shape(Completed(j, outcome, now), now) && Advances(j, Completed(j, outcome, now))
  {
  }

  lemma FinishedKeepsInv(s: State, id: int, a: Attempt)
    requires Inv(s) && id in s.running && !a.reach.BeforeSend? && |a.taken| <= 1 && (a.outcome.Raised? ==> a.taken == [])
    ensures Inv(Finished(s, id, a))
    ensures forall i :: i in s.jobs ==> i in Finished(s, id, a).jobs && Advances(s.jobs[i], Finished(s, id, a).jobs[i])
  {
    StepsKeepShape(s.jobs[id], a.outcome, s.now);
    assert MailsOf(s, id) + a.taken == a.taken;
  }

  lemma StartKeepsInv(s: State, e: Event)
    requires Inv(s) && e.Start?
    ensures Inv(Apply(s, e))
    ensures forall id :: id in s.jobs ==> id in Apply(s, e).jobs && Advances(s.jobs[id], Apply(s, e).jobs[id])
  {
    var s' := Apply(s, e);
    SameMails(s, s');
    if e.id in s.queue {
      assert e.id !in s.attempts;
      StepsKeepShape(s.jobs[e.id], BulkMail.Raised(""), s.now);
    }
  }

  lemma PostKeepsInv(s: State, e: Event)
    requires Inv(s) && e.Post?
    ensures Inv(Apply(s, e))
    ensures forall id :: id in s.jobs ==> id in Apply(s, e).jobs && Advances(s.jobs[id], Apply(s, e).jobs[id])
  {
    SameMails(s, Apply(s, e));
  }

  lemma TickKeepsInv(s: State, e: Event)
    requires Inv(s) && e.Tick?
    ensures Inv(Apply(s, e))
    ensures forall id :: id in s.jobs ==> id in Apply(s, e).jobs && Advances(s.jobs[id], Apply(s, e).jobs[id])
  {
    SameMails(s, Apply(s, e));
  }

  lemma SameMails(s: State, s': State)
    requires s'.mails == s.mails
    ensures forall id :: MailsOf(s', id) == MailsOf(s, id)
  {
  }

  /** A system without jobs is on record: the runs below may start from it. */
  lemma EmptyIsOnRecord(s: State)
    requires s.jobs == map[] && s.queue == {} && s.running == {} && s.attempts == map[] && s.mails == map[]
    ensures Inv(s) && AllGenuine(s)
  {
  }

  lemma EventKeepsInv(s: State, e: Event)
    requires Inv(s)
    ensures Inv(Apply(s, e))
    ensures forall id :: id in s.jobs ==> id in Apply(s, e).jobs && Advances(s.jobs[id], Apply(s, e).jobs[id])
  {
    if e.Tick? {
      TickKeepsInv(s, e);
    } else if e.Post? {
      PostKeepsInv(s, e);
    } else if e.Start? {
      StartKeepsInv(s, e);
    } else if e.id in s.running && !e.reach.BeforeSend? {
      var r := e.reading;
      BulkMail.SendTakesAtMostOne(r.rows, s.jobs[e.id].recipient, s.jobs[e.id].day, s.jobs[e.id].format, r.render, r.mailer);
      FinishedKeepsInv(s, e.id, AttemptOf(OrderOf(s.jobs[e.id]), r, e.reach));
    }
  }

  /** From here on the row is at or past this status, and a finished row never changes. */
  ghost predicate Evolves(j: Job, j': Job) {
    && Rank(j.status) <= Rank(j'.status)
    && (Rank(j.status) == Rank(j'.status) ==> j' == j)
    && (j.startedAt.Some? ==> j'.startedAt == j.startedAt)
    && j'.companyId == j.companyId && j'.day == j.day && j'.recipient == j.recipient && j'.format == j.format
    && j'.requestedBy == j.requestedBy
  }

  /** In every run, whatever raises or dies wherever: committed rows keep the shape of their status, and each moves only
      QUEUED, SENDING, then SUCCESS or FAILED, and never again. */
  lemma {:induction false} JobsOnlyAdvance(s: State, events: seq<Event>)
    requires Inv(s)
    ensures Inv(After(s, events))
    ensures forall id :: id in s.jobs ==> id in After(s, events).jobs && Evolves(s.jobs[id], After(s, events).jobs[id])
    decreases |events|
  {
    if events != [] {
      EventKeepsInv(s, events[0]);
      JobsOnlyAdvance(Apply(s, events[0]), events[1..]);
    }
  }

  lemma FinishedStamps(s: State, id: int, a: Attempt, other: int)
    requires id in s.jobs && other in s.jobs
    ensures var j, j' := s.jobs[other], Finished(s, id, a).jobs[other];
            if other == id && a.reach.Committed?
            then j'.finishedAt == Some(s.now) && j'.startedAt == j.startedAt && (j'.status == SUCCESS || j'.status == FAILED)
            else j' == j
  {
  }

  /** What each event does to a row: a start stamps its instant and SENDING, a committed finish its instant and the end
      status, and nothing else touches a row. */
  lemma EventsStampTheirInstant(s: State, e: Event, id: int)
    requires Inv(s) && id in s.jobs
    ensures var j, j' := s.jobs[id], Apply(s, e).jobs[id];
            id in Apply(s, e).jobs &&
            if e.Start? && e.id == id && e.ok && id in s.queue
            then j'.status == SENDING && j'.startedAt == Some(s.now) && j'.(status := j.status, startedAt := j.startedAt) == j
            else if e.Finish? && e.id == id && id in s.running && e.reach.Committed?
            then j'.finishedAt == Some(s.now) && j'.startedAt == j.startedAt && (j'.status == SUCCESS || j'.status == FAILED)
            else j' == j
  {
    if e.Finish? && e.id in s.running && !e.reach.BeforeSend? {
      FinishedStamps(s, e.id, AttemptOf(OrderOf(s.jobs[e.id]), e.reading, e.reach), id);
    }
  }

  // ---------------------------------------------------------------- what a status says about the mail

  function Min(a: nat, b: nat): nat {
    if a < b then a else b
  }

  /** What a SUCCESS row says: the preview of the database its runner read announced these journals, and unless there
      were none or mailing is switched off the provider took exactly this mail. */
  ghost predicate Delivered(j: Job, r: Reading, mails: seq<BulkMail.Mail>) {
    var announced := |BulkMail.PreviewRows(r.tables, j.companyId, j.day)|;
    && j.scheduleCount == Min(300, announced)
    && (j.truncated <==> announced > 300)
    && (announced > 0 && r.mailer.Accepts? ==>
          j.messageId == r.mailer.messageId && |mails| == 1 && BulkMail.Attaches(mails[0], r.rows, j.recipient, j.day, j.format, r.render))
    && (announced == 0 || !r.mailer.Accepts? ==> j.messageId.None? && mails == [])
    && (announced > 0 ==> !r.mailer.Refuses?)
    && OnlyOwn(j, r.tables, mails)
  }

  ghost predicate OnlyOwn(j: Job, t: BulkMail.Tables, mails: seq<BulkMail.Mail>) {
    forall i, k :: 0 <= i < |mails| && 0 <= k < |mails[i].attachments| ==> AttachesOwn(j, t, mails[i].attachments[k])
  }

  /** The attachment is the journal of a schedule of the job's company that starts on the job's day. */
  ghost predicate AttachesOwn(j: Job, t: BulkMail.Tables, a: BulkMail.Attachment) {
    exists row :: row in t.schedules && row.id == a.scheduleId && BulkMail.IsOfCompanyAndDay(t, j.companyId, j.day, row)
  }

  lemma AttachedIsOwn(j: Job, r: Reading, i: nat)
    requires AnswersQuery(r, j) && i < |r.rows|
    ensures r.rows[i] in r.tables.schedules && BulkMail.IsOfCompanyAndDay(r.tables, j.companyId, j.day, r.rows[i])
  {
    BulkMail.SelectionIsExact(r.tables, j.companyId, j.day);
    assert r.rows[i] in multiset(BulkMail.SendRows(r.tables, j.companyId, j.day));
  }

  lemma AttachmentsAreOwn(j: Job, r: Reading, mails: seq<BulkMail.Mail>)
    requires AnswersQuery(r, j)
    requires forall i :: 0 <= i < |mails| ==> BulkMail.Attaches(mails[i], r.rows, j.recipient, j.day, j.format, r.render)
    ensures OnlyOwn(j, r.tables, mails)
  {
    forall i, k | 0 <= i < |mails| && 0 <= k < |mails[i].attachments|
      ensures AttachesOwn(j, r.tables, mails[i].attachments[k])
    {
      AttachedIsOwn(j, r, k);
      assert BulkMail.Capped(r.rows)[k] == r.rows[k];
    }
  }

  lemma SelectsWhatIsAnnounced(j: Job, r: Reading)
    requires AnswersQuery(r, j)
    ensures |r.rows| == |BulkMail.PreviewRows(r.tables, j.companyId, j.day)|
  {
    BulkMail.PreviewSelectsWhatSendSelects(r.tables, j.companyId, j.day);
    BulkMail.SameSize(r.rows, BulkMail.PreviewRows(r.tables, j.companyId, j.day));
  }

  lemma SentIsDelivered(j: Job, r: Reading, outcome: BulkMail.SendOutcome, taken: seq<BulkMail.Mail>, now: int)
    requires |r.rows| == |BulkMail.PreviewRows(r.tables, j.companyId, j.day)| && OnlyOwn(j, r.tables, taken)
    requires BulkMail.SendAnswers(r.rows, j.recipient, j.day, j.format, r.render, r.mailer, outcome, taken)
    requires j == Completed(j, outcome, now) && j.status == SUCCESS
    ensures Delivered(j, r, taken)
  {
  }

  lemma GenuineAnswers(j: Job, a: Attempt)
    requires Genuine(j, a)
    ensures AnswersQuery(a.reading, j)
    ensures BulkMail.SendAnswers(a.reading.rows, j.recipient, j.day, j.format, a.reading.render, a.reading.mailer, a.outcome, a.taken)
  {
    BulkMail.SendMeans(a.reading.rows, j.recipient, j.day, j.format, a.reading.render, a.reading.mailer);
  }

  lemma TakenAttach(j: Job, r: Reading, outcome: BulkMail.SendOutcome, taken: seq<BulkMail.Mail>)
    requires BulkMail.SendAnswers(r.rows, j.recipient, j.day, j.format, r.render, r.mailer, outcome, taken) && outcome.Sent?
    ensures forall i :: 0 <= i < |taken| ==> BulkMail.Attaches(taken[i], r.rows, j.recipient, j.day, j.format, r.render)
  {
  }

  lemma GenuineAttachesOwn(j: Job, a: Attempt)
    requires Genuine(j, a) && a.outcome.Sent?
    ensures OnlyOwn(j, a.reading.tables, a.taken)
  {
    GenuineAnswers(j, a);
    TakenAttach(j, a.reading, a.outcome, a.taken);
    AttachmentsAreOwn(j, a.reading, a.taken);
  }

  lemma FinishedKeepsGenuine(s: State, id: int, a: Attempt)
    requires Inv(s) && AllGenuine(s) && id in s.running && Genuine(s.jobs[id], a)
    ensures AllGenuine(Finished(s, id, a))
  {
    var s' := Finished(s, id, a);
    forall i | i in s'.attempts
      ensures Genuine(s'.jobs[i], s'.attempts[i])
    {
      if i == id {
        SameQuery(s.jobs[i], s'.jobs[i], a);
      }
    }
  }

  ghost predicate Sends(s: State, e: Event) {
    e.Finish? && e.id in s.running && !e.reach.BeforeSend?
  }

  lemma QuietKeepsGenuine(s: State, s': State)
    requires AllGenuine(s) && s'.attempts == s.attempts
    requires forall id :: id in s.jobs ==> id in s'.jobs && Advances(s.jobs[id], s'.jobs[id])
    ensures AllGenuine(s')
  {
    forall id | id in s'.attempts
      ensures Genuine(s'.jobs[id], s'.attempts[id])
    {
      SameQuery(s.jobs[id], s'.jobs[id], s.attempts[id]);
    }
  }

  lemma AttemptIsGenuine(j: Job, r: Reading, reach: Reach)
    requires AnswersQuery(r, j)
    ensures Genuine(j, AttemptOf(OrderOf(j), r, reach))
  {
  }

  lemma SendKeepsGenuine(s: State, e: Event)
    requires Inv(s) && AllGenuine(s) && Possible(s, e) && Sends(s, e)
    ensures AllGenuine(Apply(s, e))
  {
    var a := AttemptOf(OrderOf(s.jobs[e.id]), e.reading, e.reach);
    AttemptIsGenuine(s.jobs[e.id], e.reading, e.reach);
    FinishedKeepsGenuine(s, e.id, a);
    assert Apply(s, e) == Finished(s, e.id, a);
  }

  lemma QuietAttempts(s: State, e: Event)
    requires !Sends(s, e)
    ensures Apply(s, e).attempts == s.attempts
  {
  }

  lemma QuietEventKeepsGenuine(s: State, e: Event)
    requires Inv(s) && AllGenuine(s) && !Sends(s, e)
    ensures AllGenuine(Apply(s, e))
  {
    var s' := Apply(s, e);
    EventKeepsInv(s, e);
    QuietAttempts(s, e);
    QuietKeepsGenuine(s, s');
  }

  lemma EventKeepsGenuine(s: State, e: Event)
    requires Inv(s) && AllGenuine(s) && Possible(s, e)
    ensures AllGenuine(Apply(s, e))
  {
    if Sends(s, e) {
      SendKeepsGenuine(s, e);
    } else {
      QuietEventKeepsGenuine(s, e);
    }
  }

  lemma SameQuery(j: Job, j': Job, a: Attempt)
    requires Genuine(j, a) && j'.companyId == j.companyId && OrderOf(j') == OrderOf(j)
    ensures Genuine(j', a)
  {
  }

  lemma {:induction false} RunKeepsGenuine(s: State, events: seq<Event>)
    requires Inv(s) && AllGenuine(s) && IsRun(s, events)
    ensures AllGenuine(After(s, events))
    decreases |events|
  {
    if events != [] {
      EventKeepsInv(s, events[0]);
      EventKeepsGenuine(s, events[0]);
      RunKeepsGenuine(Apply(s, events[0]), events[1..]);
    }
  }

  /** Over every run: a job committed as SUCCESS was sent by one runner, with what the preview of the database it read
      announces, and the mail is the one the provider took for it. */
  lemma SuccessMeansSent(s: State, events: seq<Event>, id: int)
    requires Inv(s) && AllGenuine(s) && IsRun(s, events)
    requires id in After(s, events).jobs && After(s, events).jobs[id].status == SUCCESS
    ensures var s' := After(s, events);
            && id in s'.attempts && s'.attempts[id].reach.Committed?
            && Delivered(s'.jobs[id], s'.attempts[id].reading, MailsOf(s', id))
  {
    JobsOnlyAdvance(s, events);
    RunKeepsGenuine(s, events);
    var s' := After(s, events);
    var j := s'.jobs[id];
    assert Records(j, s'.attempts[id], MailsOf(s', id));
    GenuineAttachesOwn(j, s'.attempts[id]);
    GenuineAnswers(j, s'.attempts[id]);
    SelectsWhatIsAnnounced(j, s'.attempts[id].reading);
    SentIsDelivered(j, s'.attempts[id].reading, s'.attempts[id].outcome, s'.attempts[id].taken, j.finishedAt.GetOr(0));
  }

  /** Over every run: at most one mail is ever taken for a job; a job with a mail is SUCCESS, or SENDING for good, the
      latter exactly when the second commit was lost; QUEUED and FAILED jobs have none. */
  lemma MailMeansSuccessOrLostCommit(s: State, events: seq<Event>, id: int)
    requires Inv(s) && MailsOf(After(s, events), id) != []
    ensures var s' := After(s, events);
            && |MailsOf(s', id)| == 1 && id in s'.jobs && id in s'.attempts && id !in s'.running && id !in s'.queue
            && (s'.jobs[id].status == SENDING <==> s'.attempts[id].reach.AfterSend?)
            && (s'.jobs[id].status == SUCCESS <==> s'.attempts[id].reach.Committed?)
            && (s'.jobs[id].status == SENDING || s'.jobs[id].status == SUCCESS)
  {
    JobsOnlyAdvance(s, events);
    var s' := After(s, events);
    assert Records(s'.jobs[id], s'.attempts[id], MailsOf(s', id));
  }

  /** Over every run: a FAILED row gives the first 1000 characters of what send raised, and counts nothing. */
  lemma FailedGivesTheReason(s: State, events: seq<Event>, id: int)
    requires Inv(s) && AllGenuine(s) && IsRun(s, events)
    requires id in After(s, events).jobs && After(s, events).jobs[id].status == FAILED
    ensures var s' := After(s, events);
            var j := s'.jobs[id];
            && id in s'.attempts && s'.attempts[id].outcome.Raised? && j.errorMessage.Some?
            && j.errorMessage.value <= s'.attempts[id].outcome.error
            && |j.errorMessage.value| == Min(1000, |s'.attempts[id].outcome.error|)
            && j.scheduleCount == 0 && j.messageId.None? && !j.truncated && MailsOf(s', id) == []
  {
    JobsOnlyAdvance(s, events);
    var s' := After(s, events);
    assert Records(s'.jobs[id], s'.attempts[id], MailsOf(s', id));
  }

  /** From the request to the mail: the job a committed request creates keeps, over every run, the company, recipient,
      day, format and requester posted, and if it ends as SUCCESS it was delivered as posted. */
  lemma PostedIsDelivered(s: State, post: Event, events: seq<Event>)
    requires Inv(s) && AllGenuine(s) && post.Post? && post.commits && IsRun(Apply(s, post), events)
    ensures var s', id := After(Apply(s, post), events), s.nextId;
            && id !in s.jobs && id in s'.jobs
            && var j := s'.jobs[id];
               && j.companyId == post.companyId && j.recipient == post.recipient && j.day == post.day && j.format == post.format
               && j.requestedBy == post.requestedBy
               && (j.status == SUCCESS ==> id in s'.attempts && Delivered(j, s'.attempts[id].reading, MailsOf(s', id)))
    ensures Apply(s, post).jobs[s.nextId].status == QUEUED && (s.nextId in Apply(s, post).queue <==> post.survives || s.nextId in s.queue)
  {
    EventKeepsInv(s, post);
    EventKeepsGenuine(s, post);
    JobsOnlyAdvance(Apply(s, post), events);
    if After(Apply(s, post), events).jobs[s.nextId].status == SUCCESS {
      SuccessMeansSent(Apply(s, post), events, s.nextId);
    }
  }

  // ---------------------------------------------------------------- the service, in place

  /** Where the runner meets an exception (or the process dies): each flag lets the step succeed. */
  datatype Faults = Faults(markOk: bool, firstCommitOk: bool, loadOk: bool, completeOk: bool, secondCommitOk: bool)

  class BulkEmailService {
    var committed: map<int, Job>
    var working: map<int, Job>    // the session's view
    var nextId: int

    constructor (jobs: map<int, Job>, nextId: int)
      ensures committed == jobs && working == jobs && this.nextId == nextId
    {
      committed, working, this.nextId := jobs, jobs, nextId;
    }

    method Commit()
      modifies this`committed
      ensures committed == working
    {
      committed := working;
    }

    method Rollback()
      modifies this`working
      ensures working == committed
    {
      working := committed;
    }

    method CreateJob(companyId: int, day: int, recipient: string, format: string, requestedBy: Option<int>) returns (id: int)
      modifies this`working, this`nextId
      ensures id == old(nextId) && nextId == id + 1
      ensures working == old(working)[id := NewJob(companyId, day, recipient, format, requestedBy)]
    {
      id := nextId;
      nextId := nextId + 1;
      working := working[id := NewJob(companyId, day, recipient, format, requestedBy)];
    }

    method MarkSending(id: int, now: int) returns (found: bool)
      modifies this`working
      ensures found <==> id in old(working)
      ensures working == if found then old(working)[id := Marked(old(working)[id], now)] else old(working)
    {
      if id !in working {
        return false;
      }
      var job := working[id];
      job := job.(status := SENDING);
      job := job.(startedAt := Some(now));
      working := working[id := job];
      found := true;
    }

    /** Sends, and records the result or the reason. */
    method CompleteJob(id: int, reading: Reading, now: int) returns (taken: seq<BulkMail.Mail>)
      modifies this`working
      ensures id in old(working) ==>
                var (outcome, mails) := SendOf(OrderOf(old(working)[id]), reading);
                taken == mails && working == old(working)[id := Completed(old(working)[id], outcome, now)]
      ensures id !in old(working) ==> taken == [] && working == old(working)
    {
      if id !in working {
        return [];
      }
      var job := working[id];
      var outcome: BulkMail.SendOutcome;
      outcome, taken := BulkMail.Send(reading.rows, job.recipient, job.day, job.format, reading.render, reading.mailer);
      match outcome {
        case Sent(count, messageId, truncated) =>
          job := job.(scheduleCount := count);
          job := job.(messageId := messageId);
          job := job.(truncated := truncated);
          job := job.(status := SUCCESS);
        case Raised(error) =>
          job := job.(status := FAILED);
          job := job.(errorMessage := Some(if |error| > 1000 then error[..1000] else error));
      }
      job := job.(finishedAt := Some(now));
      working := working[id := job];
    }

    /** The background runner in its own session: its committed effect, and the mails the provider took. */
    method RunBulkEmailJob(id: int, startedAt: int, reading: Reading, finishedAt: int, f: Faults) returns (taken: seq<BulkMail.Mail>)
      requires working == committed
      modifies this`working, this`committed
      ensures working == committed
      ensures Ran(old(committed), id, startedAt, reading, finishedAt, Started(f), Reached(f)) == (committed, taken)
    {
      taken := [];
      if !f.markOk {
        Rollback();
        return;
      }
      var found := MarkSending(id, startedAt);
      if !found || !f.firstCommitOk {
        Rollback();
        return;
      }
      Commit();
      if !f.loadOk {
        Rollback();
        return;
      }
      ghost var marked := working[id];
      taken := CompleteJob(id, reading, finishedAt);
      assert old(committed)[id := marked][id := working[id]] == old(committed)[id := working[id]];
      if !f.completeOk || !f.secondCommitOk {
        Rollback();
        return;
      }
      Commit();
    }
  }

  predicate Started(f: Faults) {
    f.markOk && f.firstCommitOk
  }

  function Reached(f: Faults): Reach {
    if !f.loadOk then BeforeSend else if f.completeOk && f.secondCommitOk then Committed else AfterSend
  }

  /** The committed rows after the runner, and the mails taken. */
  function Ran(jobs: map<int, Job>, id: int, startedAt: int, reading: Reading, finishedAt: int, started: bool, reach: Reach)
    : (map<int, Job>, seq<BulkMail.Mail>)
  {
    if !started || id !in jobs then (jobs, [])
    else
      var marked := Marked(jobs[id], startedAt);
      var (outcome, taken) := SendOf(OrderOf(marked), reading);
      match reach
      case BeforeSend => (jobs[id := marked], [])
      case AfterSend => (jobs[id := marked], taken)
      case Committed => (jobs[id := Completed(marked, outcome, finishedAt)], taken)
  }

  /** The runner's effect is that of its two events. */
  lemma RunnerIsStartThenFinish(s: State, id: int, reading: Reading, ticks: nat, started: bool, reach: Reach)
    requires Inv(s) && id in s.queue
    ensures var s' := After(s, [Start(id, started), Tick(ticks), Finish(id, reading, reach)]);
            (s'.jobs, MailsOf(s', id)) == Ran(s.jobs, id, s.now, reading, s.now + ticks, started, reach)
  {
    var events := [Start(id, started), Tick(ticks), Finish(id, reading, reach)];
    var s1 := Apply(s, events[0]);
    var s2 := Apply(s1, events[1]);
    var s3 := Apply(s2, events[2]);
    assert events[1..] == [events[1], events[2]] && events[1..][1..] == [events[2]];
    assert After(s2, [events[2]]) == s3;
    assert After(s1, events[1..]) == s3;
    assert s.jobs[id].status == QUEUED && id !in s.running && id !in s.attempts;
    assert MailsOf(s, id) == [];
    if started && !reach.BeforeSend? {
      var marked := Marked(s.jobs[id], s.now);
      var taken := SendOf(OrderOf(marked), reading).1;
      assert s2.jobs[id] == marked && MailsOf(s3, id) == [] + taken == taken;
      assert s3.jobs == (if reach.Committed? then s.jobs[id := Completed(marked, SendOf(OrderOf(marked), reading).0, s.now + ticks)]
                         else s.jobs[id := marked]);
    }
  }
}
