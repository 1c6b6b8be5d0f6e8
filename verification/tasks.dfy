/**
 * The Celery task `send_mail_task` of core/tasks.py: it loads a job and the
 * owner's SMTP credentials, builds a transport and a message with the
 * campaign's attachments, sends it, and records `sent`; if anything inside
 * its try block raises, it records `failed` on a re-fetched row and raises
 * again.
 *
 * The SMTP library, the attachment store and the file system are not
 * modelled; what they do on one run is given by an `Smtp` value.
 */
module Tasks {
  import opened Wrappers
  import opened Models

  type Path = string

  /** A user's `smtp_creds` record. */
  datatype SmtpCreds = SmtpCreds(host: string, port: int, username: string, password: string,
                                 useTls: bool, useSsl: bool)

  /** The EmailBackend the task constructs. */
  datatype Transport = Transport(host: string, port: int, username: string, password: string,
                                 useTls: bool, useSsl: bool)

  /** The EmailMessage as handed to the transport. */
  datatype Message = Message(subject: string, body: string, sender: string, recipients: seq<string>,
                             attachments: seq<Path>, connection: Transport)

  /** What the external collaborators do on this run. */
  datatype Smtp = Smtp(
    backendFails: bool,                          // EmailBackend(...) raises
    attachments: map<CampaignId, seq<Path>>,     // get_attachments(); a missing campaign raises
    unreadable: set<Path>,                       // attach_file raises on these paths
    sendFails: bool)                             // email.send() raises

  /** The exceptions the task can raise. */
  datatype Fault =
    | JobDoesNotExist       // OutgoingMails.objects.get
    | NoSmtpCreds           // user.smtp_creds
    | BackendFault          // EmailBackend(...)
    | NoCampaign            // mail.campaign is None
    | AttachmentsFault      // campaign.get_attachments()
    | AttachFault(path: Path)
    | SendFault             // email.send()

  datatype TaskOutcome = Completed | Raised(fault: Fault)

  /** The messages the SMTP server accepted, in order. */
  class Outbox {
    var sent: seq<Message>

    method Send(m: Message)
      modifies this
      ensures sent == old(sent) + [m]
    {
      sent := sent + [m];
    }
  }

  /**
   * The attach loop of lines 25-26: each path is attached once, in order,
   * and the first unreadable one raises.
   */
  function Attached(msg: Message, paths: seq<Path>, unreadable: set<Path>): (r: Result<Message, Fault>)
    ensures r.Ok? <==> forall i :: 0 <= i < |paths| ==> paths[i] !in unreadable
    ensures r.Ok? ==> r.value == msg.(attachments := msg.attachments + paths)
    ensures r.Err? ==> exists i :: 0 <= i < |paths| && paths[i] in unreadable && r.error == AttachFault(paths[i])
                                   && forall j :: 0 <= j < i ==> paths[j] !in unreadable
    decreases |paths|
  {
    if paths == [] then
      assert msg.attachments + paths == msg.attachments;
      Ok(msg)
    else if paths[0] in unreadable then
      Err(AttachFault(paths[0]))
    else
      var r := Attached(msg.(attachments := msg.attachments + [paths[0]]), paths[1..], unreadable);
      assert msg.attachments + [paths[0]] + paths[1..] == msg.attachments + paths;
      assert r.Err? ==> exists i :: 1 <= i < |paths| && paths[i] in unreadable && r.error == AttachFault(paths[i])
                                    && forall j :: 0 <= j < i ==> paths[j] !in unreadable;
      r
  }

  /** The attach loop itself, on the EmailMessage built at line 24. */
  method AttachFiles(msg: Message, paths: seq<Path>, unreadable: set<Path>) returns (r: Result<Message, Fault>)
    ensures r == Attached(msg, paths, unreadable)
  {
    var email := msg;
    var i := 0;
    assert paths[0..] == paths;
    while i < |paths|
      invariant 0 <= i <= |paths|
      invariant Attached(msg, paths, unreadable) == Attached(email, paths[i..], unreadable)
    {
      assert paths[i..][1..] == paths[i + 1..];
      if paths[i] in unreadable {
        return Err(AttachFault(paths[i]));
      }
      email := email.(attachments := email.attachments + [paths[i]]);
      i := i + 1;
    }
    r := Ok(email);
  }

  /** The transport of lines 15-22. */
  function TransportFor(c: SmtpCreds): (t: Transport)
    ensures t.host == c.host && t.port == c.port && t.username == c.username && t.password == c.password
    ensures t.useTls == c.useTls && t.useSsl == c.useSsl
  {
    Transport(c.host, c.port, c.username, c.password, c.useTls, c.useSsl)
  }

  /**
   * The try block of lines 14-27, for a loaded job and its owner's
   * credentials: the message the send delivers, or the first exception.
   */
  function TryBlock(job: Job, c: SmtpCreds, smtp: Smtp, subject: string, body: string,
                    sender: string, to: string): (r: Result<Message, Fault>)
    ensures r.Ok? <==> && !smtp.backendFails
                       && job.campaign.Some? && job.campaign.value in smtp.attachments
                       && (forall i :: 0 <= i < |smtp.attachments[job.campaign.value]| ==>
                             smtp.attachments[job.campaign.value][i] !in smtp.unreadable)
                       && !smtp.sendFails
    ensures r.Ok? ==> r.value == Message(subject, body, sender, [to], smtp.attachments[job.campaign.value],
                                         Transport(c.host, c.port, c.username, c.password, c.useTls, c.useSsl))
    ensures smtp.backendFails ==> r == Err(BackendFault)
    ensures !smtp.backendFails && job.campaign.None? ==> r == Err(NoCampaign)
    ensures !smtp.backendFails && job.campaign.Some? && job.campaign.value !in smtp.attachments ==>
              r == Err(AttachmentsFault)
    // the first unreadable attachment is the one reported
    ensures !smtp.backendFails && job.campaign.Some? && job.campaign.value in smtp.attachments ==>
              var paths := smtp.attachments[job.campaign.value];
              forall i :: 0 <= i < |paths| && paths[i] in smtp.unreadable &&
                          (forall j :: 0 <= j < i ==> paths[j] !in smtp.unreadable) ==>
                r == Err(AttachFault(paths[i]))
    ensures (&& !smtp.backendFails && job.campaign.Some? && job.campaign.value in smtp.attachments
             && (forall i :: 0 <= i < |smtp.attachments[job.campaign.value]| ==>
                   smtp.attachments[job.campaign.value][i] !in smtp.unreadable)
             && smtp.sendFails)
            ==> r == Err(SendFault)
  {
    if smtp.backendFails then Err(BackendFault)
    else if job.campaign.None? then Err(NoCampaign)
    else if job.campaign.value !in smtp.attachments then Err(AttachmentsFault)
    else
      var email := Message(subject, body, sender, [to], [], TransportFor(c));
      var attached := Attached(email, smtp.attachments[job.campaign.value], smtp.unreadable);
      if attached.Err? then attached
      else if smtp.sendFails then Err(SendFault)
      else attached
  }

  /** The effect of one task run: the table afterwards, the message sent if any, and the outcome. */
  datatype Delivery = Delivery(rows: map<JobId, Job>, sent: Option<Message>, outcome: TaskOutcome)

  /** `send_mail_task(mail_id, subject, body, sender, to)`, as a function of the table before it. */
  function Deliver(rows: map<JobId, Job>, creds: map<UserId, SmtpCreds>, smtp: Smtp, mailId: JobId,
                   subject: string, body: string, sender: string, to: string): (d: Delivery)
    // the lookups before the try block raise without writing anything
    ensures mailId !in rows ==> d == Delivery(rows, None, Raised(JobDoesNotExist))
    ensures mailId in rows && rows[mailId].user !in creds ==> d == Delivery(rows, None, Raised(NoSmtpCreds))
    // otherwise only the status of this job changes, to sent or to failed
    ensures mailId in rows && rows[mailId].user in creds ==>
              || d.rows == rows[mailId := rows[mailId].(status := Sent)]
              || d.rows == rows[mailId := rows[mailId].(status := Failed)]
    // sent exactly when the try block completes, and then one message went out
    ensures d.outcome == Completed <==> mailId in rows && rows[mailId].user in creds && d.rows[mailId].status == Sent
    ensures d.outcome == Completed <==> d.sent.Some?
    ensures mailId in rows && rows[mailId].user in creds ==>
              var t := TryBlock(rows[mailId], creds[rows[mailId].user], smtp, subject, body, sender, to);
              && (t.Ok? ==> d.outcome == Completed && d.sent == Some(t.value))
              && (t.Err? ==> d.outcome == Raised(t.error) && d.rows[mailId].status == Failed)
  {
    if mailId !in rows then Delivery(rows, None, Raised(JobDoesNotExist))
    else
      var job := rows[mailId];
      if job.user !in creds then Delivery(rows, None, Raised(NoSmtpCreds))
      else
        match TryBlock(job, creds[job.user], smtp, subject, body, sender, to)
        case Ok(m) => Delivery(rows[mailId := job.(status := Sent)], Some(m), Completed)
        case Err(f) => Delivery(rows[mailId := job.(status := Failed)], None, Raised(f))
  }

  /**
   * There is no check of the current status: a job already sent is sent
   * again, and its status is written `sent` again.
   */
  lemma SentJobIsSentAgain(rows: map<JobId, Job>, creds: map<UserId, SmtpCreds>, smtp: Smtp, mailId: JobId,
                           subject: string, body: string, sender: string, to: string)
    requires mailId in rows && rows[mailId].status == Sent && rows[mailId].user in creds
    requires TryBlock(rows[mailId], creds[rows[mailId].user], smtp, subject, body, sender, to).Ok?
    ensures var d := Deliver(rows, creds, smtp, mailId, subject, body, sender, to);
            d.sent.Some? && d.rows == rows && d.outcome == Completed
  {
    assert rows[mailId := rows[mailId].(status := Sent)] == rows;
  }

  /** The result of a run does not depend on the status the job had before it. */
  lemma DeliveryIgnoresStatus(rows: map<JobId, Job>, creds: map<UserId, SmtpCreds>, smtp: Smtp, mailId: JobId,
                              subject: string, body: string, sender: string, to: string, s: JobStatus)
    requires mailId in rows
    ensures var d := Deliver(rows, creds, smtp, mailId, subject, body, sender, to);
            var e := Deliver(rows[mailId := rows[mailId].(status := s)], creds, smtp, mailId, subject, body, sender, to);
            d.sent == e.sent && d.outcome == e.outcome
  {
  }

  /** A user with no credentials never gets a job sent. */
  lemma NoCredsNeverSends(rows: map<JobId, Job>, creds: map<UserId, SmtpCreds>, smtp: Smtp, mailId: JobId,
                          subject: string, body: string, sender: string, to: string)
    requires mailId in rows && rows[mailId].user !in creds
    ensures Deliver(rows, creds, smtp, mailId, subject, body, sender, to).sent.None?
  {
  }

  /**
   * The steps of the try block before the status update (lines 15-27):
   * the message goes out exactly when the block completes.
   */
  method TrySend(outbox: Outbox, job: Job, c: SmtpCreds, smtp: Smtp, subject: string, body: string,
                 sender: string, to: string) returns (fault: Option<Fault>)
    modifies outbox
    ensures match TryBlock(job, c, smtp, subject, body, sender, to)
            case Ok(m) => fault.None? && outbox.sent == old(outbox.sent) + [m]
            case Err(f) => fault == Some(f) && outbox.sent == old(outbox.sent)
  {
    if smtp.backendFails {
      return Some(BackendFault);
    }
    if job.campaign.None? {
      return Some(NoCampaign);
    }
    if job.campaign.value !in smtp.attachments {
      return Some(AttachmentsFault);
    }
    var email := Message(subject, body, sender, [to], [], TransportFor(c));
    var attached := AttachFiles(email, smtp.attachments[job.campaign.value], smtp.unreadable);
    if attached.Err? {
      return Some(attached.error);
    }
    if smtp.sendFails {
      return Some(SendFault);
    }
    outbox.Send(attached.value);
    fault := None;
  }

  /**
   * The task itself.  The job and the credentials are looked up before the
   * try block; inside it the transport, the attachments, the message and the
   * send; on success the loaded instance is saved with status `sent`; on an
   * exception the row is fetched again, saved with status `failed`, and the
   * exception is raised again.
   */
  method SendMailTask(table: JobTable, outbox: Outbox, creds: map<UserId, SmtpCreds>, smtp: Smtp,
                      mailId: JobId, subject: string, body: string, sender: string, to: string)
    returns (outcome: TaskOutcome)
    requires table.Valid()
    modifies table, outbox
    ensures table.Valid() && table.nextId == old(table.nextId)
    ensures var d := Deliver(old(table.rows), creds, smtp, mailId, subject, body, sender, to);
            && table.rows == d.rows
            && outcome == d.outcome
            && outbox.sent == old(outbox.sent) + (if d.sent.Some? then [d.sent.value] else [])
  {
    var row := table.Get(mailId);
    if row.None? {
      return Raised(JobDoesNotExist);
    }
    var mail := new OutgoingMail.Load(mailId, row.value);
    if mail.user !in creds {
      return Raised(NoSmtpCreds);
    }
    var smtpCreds := creds[mail.user];

    var fault := TrySend(outbox, mail.Row(), smtpCreds, smtp, subject, body, sender, to);
    if fault.Some? {
      var again := table.Get(mailId);
      var refetched := new OutgoingMail.Load(mailId, again.value);
      refetched.status := Failed;
      refetched.Save(table);
      return Raised(fault.value);
    }
    mail.status := Sent;
    mail.Save(table);
    outcome := Completed;
  }
}
