/**
 * The records of core/models.py: subscriber emails with their bounce
 * counter, mailing lists, and the outgoing-mail job table.
 *
 * A Django model instance is an object whose fields the methods assign and
 * then `save()`.  Email and MailList are modelled as the instance alone (no
 * other part of the model reads their rows back); an OutgoingMails instance
 * is an `OutgoingMail` object loaded from, and saved into, a `JobTable`.
 */
module Models {
  import opened Wrappers

  /** BOUNCE_THRESHOLD: the bounce count at which an address is deactivated. */
  const BounceThreshold := 3

  type UserId = nat
  type CampaignId = nat
  type ListId = nat
  type JobId = nat

  // ---------------------------------------------------------------------
  // Email: the bounce counter
  // ---------------------------------------------------------------------

  /** The two fields of an Email row that its methods change. */
  datatype BounceState = BounceState(isActive: bool, bounceCount: int)

  /** The field defaults of a new Email row. */
  const DefaultBounceState := BounceState(true, 0)

  /** The effect of one `increment_bounce_count` call. */
  function BounceStep(s: BounceState): (t: BounceState)
    ensures s.isActive ==> t.bounceCount == s.bounceCount + 1
    ensures !s.isActive ==> t.bounceCount == s.bounceCount
    ensures t.bounceCount >= BounceThreshold ==> !t.isActive
    ensures t.isActive <==> s.isActive && t.bounceCount < BounceThreshold
  {
    var count := if s.isActive then s.bounceCount + 1 else s.bounceCount;
    if count >= BounceThreshold then BounceState(false, count) else BounceState(s.isActive, count)
  }

  /** The two methods an Email offers. */
  datatype EmailCall = Bounce | Deactivate

  /** The effect of one method call: it never lowers the count, nor reactivates the email. */
  function Apply(s: BounceState, call: EmailCall): (t: BounceState)
    ensures call == Bounce ==> t == BounceStep(s)
    ensures call == Deactivate ==> !t.isActive && t.bounceCount == s.bounceCount
    ensures t.bounceCount >= s.bounceCount && (t.isActive ==> s.isActive)
  {
    match call
    case Bounce => BounceStep(s)
    case Deactivate => s.(isActive := false)
  }

  /** The state after a sequence of method calls, first call first. */
  function Run(s: BounceState, calls: seq<EmailCall>): (t: BounceState)
    ensures calls == [] ==> t == s
    ensures t.bounceCount >= s.bounceCount && (t.isActive ==> s.isActive)
    decreases |calls|
  {
    if calls == [] then s else Run(Apply(s, calls[0]), calls[1..])
  }

  /** The states reachable from the defaults. */
  ghost predicate Reachable(s: BounceState) {
    0 <= s.bounceCount <= BounceThreshold && (s.bounceCount == BounceThreshold ==> !s.isActive)
  }

  /**
   * Whatever calls follow, a reachable email keeps at most three bounces;
   * and an inactive email never becomes active again, nor counts further.
   */
  lemma {:induction false} RunStaysReachable(s: BounceState, calls: seq<EmailCall>)
    requires Reachable(s)
    ensures Reachable(Run(s, calls))
    ensures Run(s, calls).bounceCount <= BounceThreshold
    ensures !s.isActive ==> Run(s, calls) == s.(isActive := false)
    decreases |calls|
  {
    if calls != [] {
      RunStaysReachable(Apply(s, calls[0]), calls[1..]);
    }
  }

  /** Calling `mark_inactive` twice is the same as calling it once. */
  lemma DeactivateIsIdempotent(s: BounceState)
    ensures Run(s, [Deactivate, Deactivate]) == Run(s, [Deactivate])
    ensures !Run(s, [Deactivate]).isActive
  {
    assert [Deactivate, Deactivate][1..] == [Deactivate];
  }

  /** `n` successive `increment_bounce_count` calls. */
  function Bounces(s: BounceState, n: nat): BounceState {
    if n == 0 then s else BounceStep(Bounces(s, n - 1))
  }

  /**
   * From the defaults, the count follows the calls up to three and stays
   * there, and the email is deactivated by exactly the third call.
   */
  lemma {:induction false} ThirdBounceDeactivates(n: nat)
    ensures Bounces(DefaultBounceState, n).bounceCount == if n < BounceThreshold then n else BounceThreshold
    ensures Bounces(DefaultBounceState, n).isActive <==> n < BounceThreshold
  {
    if n > 0 {
      ThirdBounceDeactivates(n - 1);
    }
  }

  /** An Email instance. */
  class Email {
    const address: string
    var isActive: bool
    var bounceCount: int

    function State(): BounceState
      reads this
    {
      BounceState(isActive, bounceCount)
    }

    constructor (address: string)
      ensures this.address == address && State() == DefaultBounceState
    {
      this.address := address;
      isActive := true;
      bounceCount := 0;
    }

    method MarkInactive()
      modifies this
      ensures State() == Apply(old(State()), Deactivate)
    {
      isActive := false;
    }

    method IncrementBounceCount()
      modifies this
      ensures State() == BounceStep(old(State()))
    {
      if isActive {
        bounceCount := bounceCount + 1;
      }
      if bounceCount >= BounceThreshold {
        MarkInactive();
      }
    }
  }

  /** A MailList instance. */
  class MailList {
    const owner: UserId
    var name: string
    var isActive: bool

    constructor (owner: UserId, name: string)
      ensures this.owner == owner && this.name == name && isActive
    {
      this.owner := owner;
      this.name := name;
      isActive := true;
    }

    method MarkInactive()
      modifies this
      ensures !isActive && name == old(name)
    {
      isActive := false;
    }
  }

  // ---------------------------------------------------------------------
  // OutgoingMails: the job table
  // ---------------------------------------------------------------------

  datatype JobStatus = Pending | Queued | Sent | Failed

  /** One OutgoingMails row (timestamps left out). */
  datatype Job = Job(
    user: UserId,
    campaign: Option<CampaignId>,
    sender: string,
    to: string,
    subject: string,
    body: string,
    haveAttachment: bool,
    status: JobStatus,
    deliveryAttempts: int,
    isActive: bool)

  /** A row created with only its content given: every other field takes its default. */
  function NewJob(user: UserId, campaign: Option<CampaignId>, sender: string, to: string,
                  subject: string, body: string): (j: Job)
    ensures j.status == Pending && j.deliveryAttempts == 0 && j.isActive && !j.haveAttachment
    ensures j.user == user && j.campaign == campaign && j.sender == sender && j.to == to
    ensures j.subject == subject && j.body == body
  {
    Job(user, campaign, sender, to, subject, body, false, Pending, 0, true)
  }

  /** The OutgoingMails table, with the id allocator of its primary key. */
  class JobTable {
    var rows: map<JobId, Job>
    var nextId: JobId

    ghost predicate Valid()
      reads this
    {
      forall id :: id in rows ==> id < nextId
    }

    constructor ()
      ensures Valid() && rows == map[] && nextId == 1
    {
      rows := map[];
      nextId := 1;
    }

    /** `OutgoingMails.objects.get(id=id)`: None stands for DoesNotExist. */
    method Get(id: JobId) returns (r: Option<Job>)
      ensures r.Some? <==> id in rows
      ensures r.Some? ==> r.value == rows[id]
    {
      if id in rows {
        r := Some(rows[id]);
      } else {
        r := None;
      }
    }

    /** An INSERT: the row gets a fresh id. */
    method Insert(job: Job) returns (id: JobId)
      requires Valid()
      modifies this
      ensures Valid()
      ensures id == old(nextId) && id !in old(rows)
      ensures rows == old(rows)[id := job] && nextId == old(nextId) + 1
    {
      id := nextId;
      rows := rows[id := job];
      nextId := nextId + 1;
    }
  }

  /** An OutgoingMails instance: a copy of one row, written back by Save. */
  class OutgoingMail {
    const id: JobId
    var user: UserId
    var campaign: Option<CampaignId>
    var sender: string
    var to: string
    var subject: string
    var body: string
    var haveAttachment: bool
    var status: JobStatus
    var deliveryAttempts: int
    var isActive: bool

    function Row(): Job
      reads this
    {
      Job(user, campaign, sender, to, subject, body, haveAttachment, status, deliveryAttempts, isActive)
    }

    /** The instance a query returns for row `id`. */
    constructor Load(id: JobId, row: Job)
      ensures this.id == id && Row() == row
    {
      this.id := id;
      user, campaign, sender, to := row.user, row.campaign, row.sender, row.to;
      subject, body, haveAttachment := row.subject, row.body, row.haveAttachment;
      status, deliveryAttempts, isActive := row.status, row.deliveryAttempts, row.isActive;
    }

    /** `save()`: the whole instance overwrites (or creates) its row. */
    method Save(table: JobTable)
      requires table.Valid()
      modifies table
      ensures table.Valid()
      ensures table.rows == old(table.rows)[id := Row()]
      ensures table.nextId == if id < old(table.nextId) then old(table.nextId) else id + 1
    {
      table.rows := table.rows[id := Row()];
      if table.nextId <= id {
        table.nextId := id + 1;
      }
    }

    method IncrementDeliveryAttempts(table: JobTable)
      requires table.Valid()
      modifies this, table
      ensures Row() == old(Row()).(deliveryAttempts := old(deliveryAttempts) + 1)
      ensures table.Valid() && table.rows == old(table.rows)[id := Row()]
      ensures id < old(table.nextId) ==> table.nextId == old(table.nextId)
    {
      deliveryAttempts := deliveryAttempts + 1;
      Save(table);
    }

    method MarkInactive(table: JobTable)
      requires table.Valid()
      modifies this, table
      ensures Row() == old(Row()).(isActive := false)
      ensures table.Valid() && table.rows == old(table.rows)[id := Row()]
      ensures id < old(table.nextId) ==> table.nextId == old(table.nextId)
    {
      isActive := false;
      Save(table);
    }

    method UpdateToSent(table: JobTable)
      requires table.Valid()
      modifies this, table
      ensures Row() == old(Row()).(status := Sent)
      ensures table.Valid() && table.rows == old(table.rows)[id := Row()]
      ensures id < old(table.nextId) ==> table.nextId == old(table.nextId)
    {
      status := Sent;
      Save(table);
    }

    method UpdateToFailed(table: JobTable)
      requires table.Valid()
      modifies this, table
      ensures Row() == old(Row()).(status := Failed)
      ensures table.Valid() && table.rows == old(table.rows)[id := Row()]
      ensures id < old(table.nextId) ==> table.nextId == old(table.nextId)
    {
      status := Failed;
      Save(table);
    }
  }
}
