/**
 * The two job views of core/views.py: `CreatePendingMails.create`, which
 * creates one pending job per address of a campaign, and
 * `SendPendingMailsView.get`, which enqueues every pending job of a campaign
 * and marks it queued.
 *
 * The Celery queue is a `TaskQueue` that records every `delay` call; the
 * recipient query `campaign.get_all_emails()` is a map from campaign to its
 * address list, and the serializer's field validation is the set of
 * addresses it rejects.
 */
module Views {
  import opened Wrappers
  import opened Models
  import Serializers

  /** The HTTP responses of the two views. */
  datatype Response =
    | Success(message: string)          // 200
    | Created(jobs: seq<JobId>)         // 201, the created jobs in order
    | BadRequest(error: string)         // 400 returned by the view
    | ValidationFailed(to: string)      // 400 from the ValidationError raised for this address
    | ServerError                       // 500 from an uncaught exception

  /** One `send_mail_task.delay(...)` call. */
  datatype TaskCall = TaskCall(mailId: JobId, subject: string, body: string, sender: string, to: string)

  /** The Celery queue, as the sequence of calls made to it. */
  class TaskQueue {
    var calls: seq<TaskCall>

    method Delay(call: TaskCall)
      modifies this
      ensures calls == old(calls) + [call]
    {
      calls := calls + [call];
    }
  }

  // ---------------------------------------------------------------------
  // SendPendingMailsView.get
  // ---------------------------------------------------------------------

  /** The filter of lines 137-139: status pending and the given campaign, whoever the user. */
  predicate Selected(j: Job, c: CampaignId)
    ensures Selected(j, c) <==> j.status == Pending && j.campaign == Some(c)
  {
    j.status == Pending && j.campaign == Some(c)
  }

  /** The jobs the filter of lines 137-139 selects. */
  function PendingOf(rows: map<JobId, Job>, c: CampaignId): (ids: set<JobId>)
    ensures ids <= rows.Keys
    ensures forall id :: id in ids ==> rows[id].status == Pending && rows[id].campaign == Some(c)
  {
    set id | id in rows && Selected(rows[id], c)
  }

  /** The table with the jobs `ids` set to queued: only their status changes. */
  function MarkQueued(rows: map<JobId, Job>, ids: set<JobId>): (r: map<JobId, Job>)
    ensures r.Keys == rows.Keys
    ensures forall id :: id in rows && id !in ids ==> r[id] == rows[id]
    ensures forall id :: id in rows && id in ids ==> r[id].status == Queued && r[id].(status := rows[id].status) == rows[id]
  {
    map id | id in rows :: if id in ids then rows[id].(status := Queued) else rows[id]
  }

  /** The task call line 141 makes for job `id`: its id and the content of its row. */
  function CallFor(id: JobId, j: Job): (call: TaskCall)
    ensures call.mailId == id && call.to == j.to && call.sender == j.sender
    ensures call.subject == j.subject && call.body == j.body
  {
    TaskCall(id, j.subject, j.body, j.sender, j.to)
  }

  /** `calls` holds exactly one call per job of `ids`, each carrying that job's row. */
  ghost predicate OneCallEach(calls: seq<TaskCall>, rows: map<JobId, Job>, ids: set<JobId>) {
    && |calls| == |ids|
    && (forall k :: 0 <= k < |calls| ==> calls[k].mailId in ids && calls[k].mailId in rows
                                         && calls[k] == CallFor(calls[k].mailId, rows[calls[k].mailId]))
    && (forall k, l :: 0 <= k < l < |calls| ==> calls[k].mailId != calls[l].mailId)
    && (forall id :: id in ids ==> exists k :: 0 <= k < |calls| && calls[k].mailId == id)
  }

  /**
   * Marking the pending jobs of a campaign leaves none pending, so a second
   * run selects nothing and changes nothing.
   */
  lemma QueuingIsIdempotent(rows: map<JobId, Job>, c: CampaignId)
    ensures PendingOf(MarkQueued(rows, PendingOf(rows, c)), c) == {}
    ensures MarkQueued(MarkQueued(rows, PendingOf(rows, c)), {}) == MarkQueued(rows, PendingOf(rows, c))
  {
  }

  /** Which jobs are selected, and so what the view changes, depends on status and campaign only. */
  lemma QueuingTouchesOnlyPendingOfCampaign(rows: map<JobId, Job>, c: CampaignId, id: JobId)
    requires id in rows
    ensures MarkQueued(rows, PendingOf(rows, c))[id] ==
              if rows[id].status == Pending && rows[id].campaign == Some(c)
              then rows[id].(status := Queued) else rows[id]
  {
  }

  lemma MarkQueuedStep(rows: map<JobId, Job>, ids: set<JobId>, id: JobId)
    requires id in rows
    ensures MarkQueued(rows, ids + {id}) == MarkQueued(rows, ids)[id := rows[id].(status := Queued)]
  {
  }

  /** The calls made for the jobs `ids`, in that order. */
  function CallsFor(ids: seq<JobId>, rows: map<JobId, Job>): (calls: seq<TaskCall>)
    requires forall k :: 0 <= k < |ids| ==> ids[k] in rows
    ensures |calls| == |ids| && forall k :: 0 <= k < |ids| ==> calls[k] == CallFor(ids[k], rows[ids[k]])
  {
    seq(|ids|, k requires 0 <= k < |ids| => CallFor(ids[k], rows[ids[k]]))
  }

  predicate Distinct(ids: seq<JobId>) {
    forall k, l :: 0 <= k < l < |ids| ==> ids[k] != ids[l]
  }

  /** Calls made for an ordering of `ids` without repeats hold one call per job. */
  lemma CallsForOrderingAreOneEach(order: seq<JobId>, rows: map<JobId, Job>, ids: set<JobId>)
    requires forall k :: 0 <= k < |order| ==> order[k] in rows
    requires Distinct(order) && |order| == |ids|
    requires forall x :: x in ids <==> x in order
    ensures OneCallEach(CallsFor(order, rows), rows, ids)
  {
    var calls := CallsFor(order, rows);
    forall id | id in ids
      ensures exists k :: 0 <= k < |calls| && calls[k].mailId == id
    {
      var k :| 0 <= k < |order| && order[k] == id;
      assert calls[k].mailId == id;
    }
  }

  /**
   * Part way through the loop: `order` lists, without repeats, the selected
   * jobs already handled, and `remaining` the others.
   */
  ghost predicate Progress(pending: map<JobId, Job>, selected: set<JobId>, remaining: set<JobId>, order: seq<JobId>) {
    && remaining <= selected <= pending.Keys
    && (forall k :: 0 <= k < |order| ==> order[k] in pending)
    && Distinct(order) && |order| + |remaining| == |selected|
    && (forall x :: x in selected - remaining <==> x in order)
  }

  /** One turn of the loop of lines 140-143, for the job `id` not yet handled. */
  lemma SendStep(pending: map<JobId, Job>, selected: set<JobId>, remaining: set<JobId>, order: seq<JobId>, id: JobId)
    requires id in remaining && Progress(pending, selected, remaining, order)
    ensures MarkQueued(pending, selected - remaining)[id := pending[id].(status := Queued)]
            == MarkQueued(pending, selected - (remaining - {id}))
    ensures Progress(pending, selected, remaining - {id}, order + [id])
    ensures CallsFor(order, pending) + [CallFor(id, pending[id])] == CallsFor(order + [id], pending)
  {
    MarkQueuedStep(pending, selected - remaining, id);
    assert selected - (remaining - {id}) == (selected - remaining) + {id};
    ProgressStep(pending, selected, remaining, order, id);
  }

  lemma ProgressStep(pending: map<JobId, Job>, selected: set<JobId>, remaining: set<JobId>, order: seq<JobId>, id: JobId)
    requires id in remaining && Progress(pending, selected, remaining, order)
    ensures Progress(pending, selected, remaining - {id}, order + [id])
  {
    assert id !in order;
    assert |remaining - {id}| == |remaining| - 1;
  }

  /** The body of the loop of lines 140-143, for the loaded row `row` of job `id`. */
  method QueueOne(table: JobTable, queue: TaskQueue, id: JobId, row: Job)
    requires table.Valid() && id in table.rows
    modifies table, queue
    ensures table.Valid() && table.nextId == old(table.nextId)
    ensures table.rows == old(table.rows)[id := row.(status := Queued)]
    ensures queue.calls == old(queue.calls) + [CallFor(id, row)]
  {
    var mail := new OutgoingMail.Load(id, row);
    queue.Delay(TaskCall(mail.id, mail.subject, mail.body, mail.sender, mail.to));
    mail.status := Queued;
    mail.Save(table);
  }

  /**
   * The loop of lines 137-143: every job pending for campaign `c` is
   * enqueued once, in some order, with the contents of its row as loaded,
   * and then saved as queued.
   */
  method QueuePending(table: JobTable, queue: TaskQueue, c: CampaignId) returns (ghost order: seq<JobId>)
    requires table.Valid()
    modifies table, queue
    ensures table.Valid() && table.nextId == old(table.nextId)
    ensures table.rows == MarkQueued(old(table.rows), PendingOf(old(table.rows), c))
    ensures forall k :: 0 <= k < |order| ==> order[k] in old(table.rows)
    ensures queue.calls == old(queue.calls) + CallsFor(order, old(table.rows))
    ensures Distinct(order) && |order| == |PendingOf(old(table.rows), c)|
    ensures forall x :: x in PendingOf(old(table.rows), c) <==> x in order
  {
    var pending := table.rows;  // the rows as the queryset loads them
    var selected := PendingOf(pending, c);
    var remaining := selected;
    order := [];
    while remaining != {}
      invariant Progress(pending, selected, remaining, order)
      invariant table.Valid() && table.nextId == old(table.nextId)
      invariant table.rows == MarkQueued(pending, selected - remaining)
      invariant queue.calls == old(queue.calls) + CallsFor(order, pending)
      decreases remaining
    {
      var id :| id in remaining;
      QueueOne(table, queue, id, pending[id]);
      SendStep(pending, selected, remaining, order, id);
      remaining := remaining - {id};
      order := order + [id];
    }
    assert selected - remaining == selected;
  }

  /**
   * `SendPendingMailsView.get`.  Without a campaign id (or with the falsy
   * id 0) nothing changes; otherwise every job pending for the campaign is
   * enqueued once and marked queued.
   */
  method SendPendingMails(table: JobTable, queue: TaskQueue, campaign: Option<CampaignId>)
    returns (resp: Response)
    requires table.Valid()
    modifies table, queue
    ensures table.Valid() && table.nextId == old(table.nextId)
    ensures |queue.calls| >= |old(queue.calls)| && queue.calls[..|old(queue.calls)|] == old(queue.calls)
    ensures (campaign.None? || campaign.value == 0) ==>
              && resp == BadRequest("Campaign ID is required")
              && table.rows == old(table.rows) && queue.calls == old(queue.calls)
    ensures campaign.Some? && campaign.value != 0 ==>
              var ids := PendingOf(old(table.rows), campaign.value);
              && resp == Success("All pending mails have been sent")
              && table.rows == MarkQueued(old(table.rows), ids)
              && OneCallEach(queue.calls[|old(queue.calls)|..], old(table.rows), ids)
  {
    if campaign.None? || campaign.value == 0 {  // a missing or falsy id
      return BadRequest("Campaign ID is required");
    }
    ghost var before := queue.calls;
    ghost var rows := table.rows;
    ghost var order := QueuePending(table, queue, campaign.value);
    CallsForOrderingAreOneEach(order, rows, PendingOf(rows, campaign.value));
    assert queue.calls[|before|..] == CallsFor(order, rows);
    resp := Success("All pending mails have been sent");
  }

  // ---------------------------------------------------------------------
  // CreatePendingMails.create
  // ---------------------------------------------------------------------

  const FixedSender := "hello@world.com"
  const FixedSubject := "Hello World"
  const FixedBody := "How Are You?"

  /**
   * The job `serializer.save(user=user)` inserts for one address of lines
   * 106-117, given the address as the serializer cleaned it: every field the
   * data leaves out takes its default.
   */
  function PendingMailFor(user: UserId, c: CampaignId, to: string): (j: Job)
    ensures j.to == to && j.campaign == Some(c) && j.user == user
    ensures j.sender == "hello@world.com" && j.subject == "Hello World" && j.body == "How Are You?"
    ensures j.status == Pending && j.deliveryAttempts == 0 && j.isActive
  {
    NewJob(user, Some(c), FixedSender, to, FixedSubject, FixedBody)
  }

  /** The addresses as the serializer's CharField cleans them: `str.strip()`. */
  function Cleaned(emails: seq<string>): (r: seq<string>)
    ensures |r| == |emails|
    ensures forall k {:trigger Serializers.Strip(emails[k])} :: 0 <= k < |emails| ==> r[k] == Serializers.Strip(emails[k])
  {
    seq(|emails|, k requires 0 <= k < |emails| => Serializers.Strip(emails[k]))
  }

  /**
   * `perform_create(serializer)`, with the user `save` is given.  The fields
   * of OutgoingMailSerializer (core/serializers.py:213-224) do not include
   * `user`, so the "user" key of the request data is dropped; without a user
   * passed to `save` the row has none, and the NOT NULL column of
   * core/models.py:96 makes the INSERT raise IntegrityError (None here).
   */
  method PerformCreate(table: JobTable, user: Option<UserId>, c: CampaignId, to: string)
    returns (id: Option<JobId>)
    requires table.Valid()
    modifies table
    ensures table.Valid()
    ensures user.None? ==> id.None? && table.rows == old(table.rows) && table.nextId == old(table.nextId)
    ensures user.Some? ==>
              && id == Some(old(table.nextId))
              && table.rows == old(table.rows)[old(table.nextId) := PendingMailFor(user.value, c, Serializers.Strip(to))]
              && table.nextId == old(table.nextId) + 1
  {
    if user.None? {
      return None;
    }
    var inserted := table.Insert(PendingMailFor(user.value, c, Serializers.Strip(to)));
    id := Some(inserted);
  }

  /**
   * How many addresses the loop of lines 105-118 gets through when every
   * insert succeeds: all of them up to, and not including, the first one the
   * serializer rejects.
   */
  function Accepted(emails: seq<string>, rejected: set<string>): (n: nat)
    ensures n <= |emails|
    ensures forall k :: 0 <= k < n ==> emails[k] !in rejected
    ensures n < |emails| ==> emails[n] in rejected
    decreases |emails|
  {
    if emails == [] || emails[0] in rejected then 0 else 1 + Accepted(emails[1..], rejected)
  }

  /** An address the serializer accepts lets the loop go on past it. */
  lemma AcceptedGrows(emails: seq<string>, rejected: set<string>, i: nat)
    requires i <= Accepted(emails, rejected) && i < |emails| && emails[i] !in rejected
    ensures i < Accepted(emails, rejected)
  {
  }

  /** The rows created for `emails`, with ids from `base` on, one per address in order. */
  function NewRows(base: JobId, user: UserId, c: CampaignId, emails: seq<string>): (r: map<JobId, Job>)
    ensures forall id :: id in r <==> base <= id < base + |emails|
    ensures forall k :: 0 <= k < |emails| ==> r[base + k] == PendingMailFor(user, c, emails[k])
    decreases |emails|
  {
    if emails == [] then map[]
    else NewRows(base, user, c, emails[..|emails| - 1])[base + |emails| - 1 := PendingMailFor(user, c, emails[|emails| - 1])]
  }

  lemma NewRowsStep(base: JobId, user: UserId, c: CampaignId, emails: seq<string>, i: nat)
    requires i < |emails|
    ensures NewRows(base, user, c, emails[..i + 1]) ==
              NewRows(base, user, c, emails[..i])[base + i := PendingMailFor(user, c, emails[i])]
  {
    assert emails[..i + 1][..i] == emails[..i];
  }

  /**
   * Part way through the loop of lines 105-118: the first `i` addresses have
   * their jobs, with ids from `base` on.
   */
  ghost predicate CreatedSoFar(rows: map<JobId, Job>, nextId: JobId, created: seq<JobId>,
                               rows0: map<JobId, Job>, base: JobId, user: UserId, c: CampaignId, tos: seq<string>, i: nat)
  {
    && i <= |tos|
    && nextId == base + i && created == Ids(base, i)
    && rows == rows0 + NewRows(base, user, c, tos[..i])
  }

  /** One turn of the loop of lines 105-118, on the table and on the list of created ids. */
  lemma CreateStep(rows: map<JobId, Job>, nextId: JobId, created: seq<JobId>,
                   rows0: map<JobId, Job>, base: JobId, user: UserId, c: CampaignId, tos: seq<string>, i: nat)
    requires CreatedSoFar(rows, nextId, created, rows0, base, user, c, tos, i) && i < |tos|
    ensures CreatedSoFar(rows[nextId := PendingMailFor(user, c, tos[i])], nextId + 1, created + [nextId],
                         rows0, base, user, c, tos, i + 1)
  {
    NewRowsStep(base, user, c, tos, i);
    assert Ids(base, i) + [base + i] == Ids(base, i + 1);
  }

  /** The ids `base`, `base + 1`, ..., `base + n - 1`. */
  function Ids(base: JobId, n: nat): (ids: seq<JobId>)
    ensures |ids| == n && forall k :: 0 <= k < n ==> ids[k] == base + k
  {
    seq(n, k => base + k)
  }

  /** Why the loop of lines 105-118 stopped early. */
  datatype Halt =
    | Rejected(to: string)  // the ValidationError of line 116
    | NoUser                // the IntegrityError of line 124

  /**
   * One turn of the loop of lines 105-118, for the address `emails[i]`: the
   * serializer validates it (line 116), then `perform_create` saves it.
   */
  method CreateOne(table: JobTable, user: Option<UserId>, c: CampaignId, emails: seq<string>, rejected: set<string>, i: nat)
    returns (id: Option<JobId>, halt: Option<Halt>)
    requires table.Valid() && i < |emails|
    modifies table
    ensures table.Valid()
    ensures emails[i] in rejected || user.None? ==>
              && id.None? && halt == Some(if emails[i] in rejected then Rejected(emails[i]) else NoUser)
              && table.rows == old(table.rows) && table.nextId == old(table.nextId)
    ensures emails[i] !in rejected && user.Some? ==>
              && halt.None? && id == Some(old(table.nextId))
              && table.rows == old(table.rows)[old(table.nextId) := PendingMailFor(user.value, c, Cleaned(emails)[i])]
              && table.nextId == old(table.nextId) + 1
  {
    if emails[i] in rejected {
      return None, Some(Rejected(emails[i]));
    }
    id := PerformCreate(table, user, c, emails[i]);
    halt := if id.None? then Some(NoUser) else None;
  }

  /**
   * The loop of lines 105-118, with the user `perform_create` passes to
   * `save`: for each address in order, the serializer validates it and then
   * the row is inserted.  The first rejected address or failed insert stops
   * the loop; the jobs created before stay created.  Without a user the very
   * first insert fails, so nothing is created.
   */
  method CreateJobs(table: JobTable, user: Option<UserId>, c: CampaignId, emails: seq<string>, rejected: set<string>)
    returns (created: seq<JobId>, halt: Option<Halt>)
    requires table.Valid()
    modifies table
    ensures table.Valid()
    ensures var n := if user.Some? then Accepted(emails, rejected) else 0;
            && created == Ids(old(table.nextId), n)
            && table.nextId == old(table.nextId) + n
            && table.rows == old(table.rows) + (if user.Some? then NewRows(old(table.nextId), user.value, c, Cleaned(emails)[..n]) else map[])
            && halt == if n == |emails| then None
                       else if emails[n] in rejected then Some(Rejected(emails[n]))
                       else Some(NoUser)
  {
    created := [];
    var i := 0;
    assert Cleaned(emails)[..0] == [];
    assert old(table.rows) + map[] == old(table.rows);
    while i < |emails|
      invariant 0 <= i <= Accepted(emails, rejected)
      invariant user.None? ==> i == 0
      invariant table.Valid()
      invariant user.Some? ==> CreatedSoFar(table.rows, table.nextId, created, old(table.rows), old(table.nextId),
                                            user.value, c, Cleaned(emails), i)
      invariant user.None? ==> table.rows == old(table.rows) && table.nextId == old(table.nextId) && created == []
    {
      label Turn:
      var id, stop := CreateOne(table, user, c, emails, rejected, i);
      if stop.Some? {
        return created, stop;
      }
      AcceptedGrows(emails, rejected, i);
      CreateStep(old@Turn(table.rows), old@Turn(table.nextId), created, old(table.rows), old(table.nextId),
                 user.value, c, Cleaned(emails), i);
      created := created + [id.value];
      i := i + 1;
    }
    halt := None;
  }

  /**
   * The response of lines 105-121 as written, for a known campaign.  An
   * empty address list reaches line 120 with `serializer` never assigned
   * (UnboundLocalError); otherwise the first address is either rejected or
   * its insert fails for lack of a user.  No job is ever reported created.
   */
  function CreateResponse(emails: seq<string>, rejected: set<string>): (r: Response)
    ensures !r.Created?
    ensures r.ValidationFailed? <==> emails != [] && emails[0] in rejected
    ensures r.ValidationFailed? ==> r.to == emails[0]
    ensures r == ServerError <==> emails == [] || emails[0] !in rejected
  {
    if emails != [] && emails[0] in rejected then ValidationFailed(emails[0]) else ServerError
  }

  /**
   * The response as evidently intended: the jobs carry the requester, and no
   * addresses is an empty success.
   */
  function CreateResponseCorrected(base: JobId, emails: seq<string>, rejected: set<string>): (r: Response)
    ensures r.ValidationFailed? <==> exists k :: 0 <= k < |emails| && emails[k] in rejected
    ensures r.ValidationFailed? ==> r.to in rejected && r.to in emails
    ensures r.ValidationFailed? ==> r.to == emails[Accepted(emails, rejected)]
    ensures !r.ValidationFailed? ==> r == Created(Ids(base, |emails|))
  {
    var n := Accepted(emails, rejected);
    if n < |emails| then ValidationFailed(emails[n]) else Created(Ids(base, n))
  }

  /** A campaign with no addresses: a server error as written, an empty 201 as intended. */
  lemma EmptyCampaignIsServerError(base: JobId, rejected: set<string>)
    ensures CreateResponse([], rejected) == ServerError
    ensures CreateResponseCorrected(base, [], rejected) == Created([])
  {
  }

  /**
   * A campaign none of whose addresses is rejected: as written the first
   * insert fails and the answer is a server error; as intended every address
   * gets a job.
   */
  lemma MissingUserIsServerError(base: JobId, emails: seq<string>, rejected: set<string>)
    requires emails != [] && forall k :: 0 <= k < |emails| ==> emails[k] !in rejected
    ensures CreateResponse(emails, rejected) == ServerError
    ensures CreateResponseCorrected(base, emails, rejected) == Created(Ids(base, |emails|))
  {
  }

  /**
   * `CreatePendingMails.create` as written: `perform_create` calls `save()`
   * without a user, so no job is ever created.
   */
  method CreatePendingMails(table: JobTable, requester: UserId, campaign: Option<CampaignId>,
                            recipients: map<CampaignId, seq<string>>, rejected: set<string>)
    returns (resp: Response)
    requires table.Valid()
    modifies table
    ensures table.Valid()
    ensures table.rows == old(table.rows) && table.nextId == old(table.nextId)
    ensures campaign.None? || campaign.value !in recipients ==>
              resp == BadRequest("Campaign does not exist or you do not have access to it")
    ensures campaign.Some? && campaign.value in recipients ==>
              resp == CreateResponse(recipients[campaign.value], rejected)
  {
    if campaign.None? || campaign.value !in recipients {
      return BadRequest("Campaign does not exist or you do not have access to it");
    }
    var emails := recipients[campaign.value];
    // the "user" entry of the data is not a serializer field, and save() gets no user
    var created, halt := CreateJobs(table, None, campaign.value, emails, rejected);
    if halt.Some? && halt.value.Rejected? {
      return ValidationFailed(halt.value.to);
    }
    if halt.Some? {
      return ServerError;  // IntegrityError
    }
    return ServerError;    // UnboundLocalError: no address, `serializer` never assigned
  }

  /**
   * `CreatePendingMails.create` as evidently intended: `perform_create`
   * calls `save(user=request.user)`, and the empty campaign is answered by
   * an empty 201.
   */
  method CreatePendingMailsCorrected(table: JobTable, requester: UserId, campaign: Option<CampaignId>,
                                     recipients: map<CampaignId, seq<string>>, rejected: set<string>)
    returns (resp: Response)
    requires table.Valid()
    modifies table
    ensures table.Valid()
    ensures campaign.None? || campaign.value !in recipients ==>
              && resp == BadRequest("Campaign does not exist or you do not have access to it")
              && table.rows == old(table.rows) && table.nextId == old(table.nextId)
    ensures campaign.Some? && campaign.value in recipients ==>
              var emails := recipients[campaign.value];
              var n := Accepted(emails, rejected);
              && table.rows == old(table.rows) + NewRows(old(table.nextId), requester, campaign.value, Cleaned(emails)[..n])
              && table.nextId == old(table.nextId) + n
              && resp == CreateResponseCorrected(old(table.nextId), emails, rejected)
  {
    if campaign.None? || campaign.value !in recipients {
      return BadRequest("Campaign does not exist or you do not have access to it");
    }
    var emails := recipients[campaign.value];
    var created, halt := CreateJobs(table, Some(requester), campaign.value, emails, rejected);
    if halt.Some? {
      return ValidationFailed(halt.value.to);
    }
    resp := Created(created);
  }

  // ---------------------------------------------------------------------
  // AddBulkEmailView.post
  // ---------------------------------------------------------------------

  /** The responses of the upload view. */
  datatype UploadResponse =
    | MissingInput                                      // 400 "CSV file and mail list are required"
    | ListNotAccessible                                 // 400 "Mail list does not exist or you do not have permission ..."
    | UploadFailed(failure: Serializers.ImportFailure)  // 400: the serializer's errors, or the ValidationError of `save()`
    | Added                                             // 201 "Emails have been added successfully"

  /** The filter of line 40: the list exists and belongs to the requester. */
  predicate Owns(lists: map<ListId, UserId>, id: ListId, user: UserId)
    // an owned list's key is one the serializer's `maillist` field resolves
    ensures Owns(lists, id, user) ==> Serializers.ListField(Serializers.Pk(id), lists) == Ok(id)
  {
    id in lists && lists[id] == user
  }

  /**
   * The `maillist` field given a MailList instance rejects it as an
   * incorrect type, where the instance's key would resolve.
   */
  lemma InstanceIsNotAPk(lists: map<ListId, UserId>, id: ListId)
    requires id in lists
    ensures Serializers.ListField(Serializers.Instance(id), lists) == Err(Serializers.IncorrectType)
    ensures Serializers.ListField(Serializers.Pk(id), lists) == Ok(id)
  {
  }

  /**
   * `AddBulkEmailView.post` as written: the serializer is given the MailList
   * instance of line 40 rather than its key, so `is_valid()` always fails on
   * the `maillist` field and nothing is ever imported.  The file is still
   * validated, and its error reported beside the field's.
   */
  method AddBulkEmails(file: Serializers.Upload?, maillist: Option<ListId>, requester: UserId,
                       store: Serializers.SubscriberStore) returns (resp: UploadResponse)
    modifies file, store
    ensures store.emails == old(store.emails) && store.memberships == old(store.memberships)
    ensures store.lists == old(store.lists)
    ensures file == null || maillist.None? ==> resp == MissingInput
    ensures file != null && maillist.Some? && !Owns(old(store.lists), maillist.value, requester) ==>
              resp == ListNotAccessible
    ensures file != null && maillist.Some? && Owns(old(store.lists), maillist.value, requester) ==>
              resp == UploadFailed(Serializers.Invalid(Serializers.FieldErrors(
                        Serializers.FileVerdict(file.name, file.payload, old(file.Remaining())), Some(Serializers.IncorrectType))))
  {
    if file == null || maillist.None? {
      return MissingInput;
    }
    if !Owns(store.lists, maillist.value, requester) {
      return ListNotAccessible;
    }
    var r := Serializers.SaveUpload(file, Serializers.Instance(maillist.value), store);
    if r.Err? {
      return UploadFailed(r.error);
    }
    resp := Added;
  }

  /**
   * `AddBulkEmailView.post` as evidently intended: the serializer is given
   * the list's key, and the stream is rewound before `create` reads it.  An
   * accepted file of a list the requester owns adds every new address of its
   * rows, with a membership of the list for each.
   */
  method AddBulkEmailsCorrected(file: Serializers.Upload?, maillist: Option<ListId>, requester: UserId,
                                store: Serializers.SubscriberStore) returns (resp: UploadResponse)
    modifies file, store
    ensures store.lists == old(store.lists)
    ensures file == null || maillist.None? || !Owns(old(store.lists), maillist.value, requester) ==>
              && resp == (if file == null || maillist.None? then MissingInput else ListNotAccessible)
              && store.emails == old(store.emails) && store.memberships == old(store.memberships)
    ensures file != null && maillist.Some? && Owns(old(store.lists), maillist.value, requester) ==>
              var verdict := Serializers.FileVerdict(file.name, file.payload, old(file.Remaining()));
              if verdict.Some? then
                && resp == UploadFailed(Serializers.Invalid(Serializers.FieldErrors(verdict, None)))
                && store.emails == old(store.emails) && store.memberships == old(store.memberships)
              else
                && resp == Added
                && Serializers.ImportOutcome(old(store.emails), file.payload).Ok?
                && var added := Serializers.ImportOutcome(old(store.emails), file.payload).value;
                   && store.emails == old(store.emails) + Serializers.Elements(added)
                   && store.memberships == old(store.memberships) + Serializers.MembershipsOf(added, maillist.value)
  {
    if file == null || maillist.None? {
      return MissingInput;
    }
    if !Owns(store.lists, maillist.value, requester) {
      return ListNotAccessible;
    }
    var r := Serializers.SaveUploadRewound(file, Serializers.Pk(maillist.value), store);
    if r.Err? {
      return UploadFailed(r.error);
    }
    resp := Added;
  }
}
