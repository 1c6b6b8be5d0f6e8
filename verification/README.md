# Mail dispatch core of flyer-backend, in Dafny

This project models the core of the flyer-backend campaign mailer, a Django
application. The core covers:

- the record state machines of `core/models.py`: the subscriber bounce
  counter, mailing lists, and the outgoing-mail job table;
- the Celery task `send_mail_task` of `core/tasks.py`, which delivers one job
  through its owner's SMTP credentials and records `sent` or `failed`;
- the two job views of `core/views.py`: `CreatePendingMails.create`, which
  turns a campaign's recipients into pending jobs, and
  `SendPendingMailsView.get`, which enqueues the pending jobs of a campaign
  and marks them queued;
- the subscriber-import serializers of `core/serializers.py`:
  - `BulkAddEmailSerializer`, which checks an uploaded CSV file and imports
    its addresses into a list;
  - `EmailMailListSerializer`, which adds one address to a list the
    requester owns.

Modules, one file each:

- `Wrappers` holds `Option` and `Result`.
- `Models` holds:
  - the `Email` and `MailList` instances, and the bounce counter as a value
    (`BounceState`, `BounceStep`);
  - the job row `Job` and the table `JobTable` (rows keyed by id, plus the id
    allocator);
  - `OutgoingMail`, a Django instance loaded from a row and written back by
    `Save`.
- `Tasks` holds the task as a method on the table and an `Outbox` of sent
  messages, and as a function `Deliver` of the table before it.
- `Views` holds the two views:
  - the Celery queue is a `TaskQueue` recording every `delay` call;
  - `campaign.get_all_emails()` is a map from campaign to address list;
  - the per-address serializer validation is the set of addresses it
    rejects.
- `Serializers` holds the CSV check and import, on an `Upload` stream object
  and a `SubscriberStore` of addresses, list owners and memberships, plus the
  membership guard chain.

The model keeps these properties of the code:

- Jobs are created one by one, with no batching and no transaction, so
  jobs created before a failure stay.
- A job row would start `pending`, with the literal sender
  `hello@world.com`.
- As written, `CreatePendingMails.create` never creates a job. The serializer
  drops the `user` key, and `save()` is given no user, so the first insert
  violates the NOT NULL user column (second row of Findings).
- As written, `AddBulkEmailView.post` never imports anything. It passes a
  MailList instance where the serializer expects a list key (fourth row of
  Findings). Even with a key, the import reads a stream that validation has
  already consumed (third row of Findings).
- The task does not check a job's status before sending, so a job already
  `sent` is sent again (`Tasks.SentJobIsSentAgain`).
- The job and credential lookups sit outside the task's `try`. A missing
  credential raises without writing `failed` (the first ensures of
  `Tasks.Deliver`).
- A campaign with no recipients is a server error, not an empty success
  (first row of Findings).

The job statuses are `pending`, `queued`, `sent` and `failed`:

- The choices in `core/models.py:90-94` omit `queued`.
- The view writes `queued` (`core/views.py:142`).
- Migration `core/migrations/0014_remove_outgoingmails_body_and_more.py:34`
  declares it.

The job's optional campaign reference is the one `core/views.py:138` and
`core/tasks.py:23` use.

## Model

| member | source | states |
|---|---|---|
| Models.Apply | core/models.py:23-33 | a bounce is one `BounceStep`; `mark_inactive` deactivates and keeps the count; no call lowers the count or reactivates |
| Models.Run | core/models.py:23-33 | no calls change nothing; a sequence of calls never lowers the count nor reactivates the email |
| Models.BounceStep | core/models.py:27-33 | an active email's count goes up by one and an inactive one's stays; reaching the threshold 3 deactivates; afterwards the email is active exactly when it was active and the count is below 3 |
| Models.RunStaysReachable | core/models.py:23-33 | after any sequence of `mark_inactive` and `increment_bounce_count` calls from a reachable state, the count stays between 0 and 3, and 3 bounces mean inactive; an inactive email never becomes active again and never counts further |
| Models.DeactivateIsIdempotent | core/models.py:23-25 | calling `mark_inactive` twice equals calling it once, and leaves the email inactive |
| Models.ThirdBounceDeactivates | core/models.py:27-33 | from the defaults, n bounces give a count of min(n, 3), and the email is active exactly while n < 3 |
| Models.Email.constructor | core/models.py:9-12 | a new email is active with bounce count 0 |
| Models.Email.MarkInactive | core/models.py:23-25 | the email becomes inactive and its count is unchanged |
| Models.Email.IncrementBounceCount | core/models.py:27-33 | the new state is one `BounceStep` of the old one |
| Models.MailList.constructor | core/models.py:39-46 | a new list is active and keeps its owner and name |
| Models.MailList.MarkInactive | core/models.py:50-52 | the list becomes inactive and keeps its name |
| Models.NewJob | core/models.py:105-108 | a new job is pending, active, has no attachment flag and 0 delivery attempts, and carries the given user, campaign, sender, recipient, subject and body |
| Models.JobTable.Get | core/tasks.py:10 | returns the row stored under the id, or None when there is none (DoesNotExist) |
| Models.JobTable.Insert | core/views.py:123-124 | the row is stored under a fresh id; no other row changes |
| Models.OutgoingMail.Load | core/tasks.py:10 | the instance holds exactly the row it was loaded from |
| Models.OutgoingMail.Save | core/tasks.py:29 | the instance's fields overwrite its row and nothing else changes |
| Models.OutgoingMail.IncrementDeliveryAttempts | core/models.py:112-114 | the attempt counter goes up by one, every other field is kept, and the row is saved |
| Models.OutgoingMail.MarkInactive | core/models.py:116-118 | the job becomes inactive, every other field is kept, and the row is saved |
| Models.OutgoingMail.UpdateToSent | core/models.py:120-122 | the status becomes sent, every other field is kept, and the row is saved |
| Models.OutgoingMail.UpdateToFailed | core/models.py:124-126 | the status becomes failed, every other field is kept, and the row is saved |
| Tasks.Outbox.Send | core/tasks.py:27 | the message is appended to what the server accepted |
| Tasks.Attached | core/tasks.py:25-26 | attaching succeeds exactly when every path is readable, and then appends all paths in order; otherwise it fails on the first unreadable path |
| Tasks.AttachFiles | core/tasks.py:24-26 | the attach loop computes `Attached` |
| Tasks.TransportFor | core/tasks.py:15-22 | the backend is built from the credentials' host, port, username, password, TLS and SSL flags |
| Tasks.TryBlock | core/tasks.py:14-27 | the try block completes exactly when the backend builds, the job has a campaign with attachments, all of them are readable and the send succeeds; the message is addressed to `[to]` with the given subject, body and sender, the campaign's attachments, and a transport built from the credentials; otherwise the error raised is the first that occurs, in the order backend failure, missing campaign, failing `get_attachments()`, the first unreadable attachment, failing send |
| Tasks.Deliver | core/tasks.py:9-34 | a missing job or credential raises with no write and no send; otherwise only this job's status changes, to sent or failed; the task completes exactly when the status becomes sent, and exactly then one message goes out, namely the one the try block composed |
| Tasks.SentJobIsSentAgain | core/tasks.py:10-29 | a job already sent whose delivery succeeds is sent again and stays sent |
| Tasks.DeliveryIgnoresStatus | core/tasks.py:9-34 | what is sent and the outcome do not depend on the job's status before the run |
| Tasks.NoCredsNeverSends | core/tasks.py:11-12 | a job whose owner has no SMTP credentials never causes a message to be sent |
| Tasks.TrySend | core/tasks.py:15-27 | the message goes out exactly when the try block completes, and otherwise the block's first exception is returned with nothing sent |
| Tasks.SendMailTask | core/tasks.py:9-34 | the table afterwards, the outcome and the messages sent are exactly those of `Deliver`; no id is allocated |
| Views.TaskQueue.Delay | core/views.py:141 | the call is appended to the queue |
| Views.QueuingIsIdempotent | core/views.py:137-143 | after one run no job of the campaign is pending, so a second run changes nothing |
| Views.QueuingTouchesOnlyPendingOfCampaign | core/views.py:137-139 | a job becomes queued exactly when it was pending and belongs to the campaign; every other row is unchanged |
| Views.QueueOne | core/views.py:140-143 | one call carrying the row's id, subject, body, sender and recipient is enqueued, and the row is saved as queued |
| Views.QueuePending | core/views.py:137-143 | every job pending for the campaign is enqueued once, in some order, with its row as loaded, and then marked queued |
| Views.SendPendingMails | core/views.py:130-145 | a missing or falsy campaign id gives 400 with nothing changed; otherwise 200, exactly one call per pending job of the campaign, those jobs queued and no other row changed |
| Views.Selected | core/views.py:137-139 | a job is selected exactly when it is pending and belongs to the campaign; the requester plays no part |
| Views.PendingOf | core/views.py:137-139 | the selected ids are ids of the table, and each is a pending job of the campaign |
| Views.MarkQueued | core/views.py:142-143 | the table keeps its ids; a marked job becomes queued with every other field kept; an unmarked job is unchanged |
| Views.CallFor | core/views.py:141 | the enqueued call carries the job's id, recipient, sender, subject and body |
| Views.PendingMailFor | core/views.py:106-117 | the job that a save with a user inserts for one cleaned address is pending, active, with 0 attempts, and carries the user, the campaign, that address, and the fixed sender, subject and body; only the corrected create reaches it |
| Views.Cleaned | core/views.py:111 | each address is replaced by its `strip()`, position by position, as the serializer's CharField cleans `to` |
| Views.PerformCreate | core/views.py:123-124 | with no user, the insert fails and the table is unchanged; with a user, exactly one row, the job for the stripped address, is stored under the next id |
| Views.Accepted | core/views.py:105-116 | the loop gets through the addresses before the first rejected one, and stops at that one |
| Views.NewRows | core/views.py:105-118 | the created rows take consecutive ids from the next free one, with one pending job per address in order |
| Views.CreateOne | core/views.py:106-117 | one iteration: a rejected address or a missing user stops the loop, names the reason and changes nothing; otherwise the job for the cleaned address is stored under the next id |
| Views.CreateJobs | core/views.py:105-118 | with a user, the loop stores the `NewRows` of the cleaned accepted prefix and returns their ids, then stops at the first rejected address; without a user, it stops at the first address with nothing stored; jobs created before a stop stay |
| Views.CreateResponse | core/views.py:105-124 | as written: never 201; a rejected first address gives its validation error; anything else is a server error |
| Views.CreateResponseCorrected | core/views.py:105-121 | as intended: the response is a validation error exactly when some address is rejected, and then it names the first rejected address; otherwise 201 with the created ids, empty for no addresses |
| Views.EmptyCampaignIsServerError | core/views.py:120 | a campaign with no addresses is a server error as written and an empty 201 as intended |
| Views.MissingUserIsServerError | core/views.py:123-124 | a campaign whose addresses are all accepted is a server error as written and 201 with one id per address as intended |
| Views.CreatePendingMails | core/views.py:92-124 | as written: a missing campaign gives 400; otherwise the response is `CreateResponse`; the table never changes |
| Views.CreatePendingMailsCorrected | core/views.py:92-121 | as intended: a missing campaign gives 400 with nothing changed; otherwise the requester's jobs for the cleaned accepted prefix are stored under consecutive ids and the response is `CreateResponseCorrected` |
| Views.Owns | core/views.py:40 | the filter on the list id and the requester; an owned list's key is one the serializer's `maillist` field resolves |
| Views.InstanceIsNotAPk | core/views.py:49-51 | the `maillist` field rejects a MailList instance as an incorrect type, where the same list's key would resolve |
| Views.AddBulkEmails | core/views.py:31-58 | as written: a missing file or list id gives 400, a list the requester does not own gives 400; otherwise the serializer's errors, always including the incorrect type of `maillist` and the `csv_file` field's verdict (empty file, or the CSV check); the store never changes |
| Views.AddBulkEmailsCorrected | core/views.py:31-58 | as intended: the same 400s with nothing changed; for an owned list, an empty or rejected file gives its error and an accepted one gives 201 and adds its new addresses and their memberships of the list |
| Serializers.Upload.Read | core/serializers.py:43 | returns the rest of the stream and leaves it at its end |
| Serializers.Upload.Rewind | core/serializers.py:70 | the stream can be read from its start again; the source has no such call: it is `seek(0)`, used only by the corrected import |
| Serializers.IsSpace | core/serializers.py:50 | space, tab, newline and carriage return are whitespace for `strip()`, and "@" is not |
| Serializers.TrimLeft | core/serializers.py:50 | the leading-whitespace half of `strip()`; the result is no longer than the input; `TrimLeftIsSuffix` and `TrimLeftDropsSpaces` state what it keeps and removes |
| Serializers.TrimRight | core/serializers.py:50 | the trailing-whitespace half of `strip()`; the result is no longer than the input; `TrimRightIsPrefix` and `TrimRightDropsSpaces` state what it keeps and removes |
| Serializers.Strip | core/serializers.py:50 | `str.strip()`, also the CharField trim of `to`; the result is no longer than the input; `StripIsInfix`, `StripRemovesOnlySpaces` and `StripEndsWithoutSpace` state what it keeps and removes |
| Serializers.TrimLeftIsSuffix | core/serializers.py:50 | left trimming returns a suffix of its input |
| Serializers.TrimRightIsPrefix | core/serializers.py:50 | right trimming returns a prefix of its input |
| Serializers.TrimLeftDropsSpaces | core/serializers.py:50 | left trimming removes a prefix made only of whitespace and stops at a non-space |
| Serializers.TrimRightDropsSpaces | core/serializers.py:50 | right trimming removes a suffix made only of whitespace and stops at a non-space |
| Serializers.StripIsInfix | core/serializers.py:50 | `strip()` returns a contiguous stretch of its input |
| Serializers.StripRemovesOnlySpaces | core/serializers.py:50 | everything `strip()` removes around that stretch is whitespace |
| Serializers.StripEndsWithoutSpace | core/serializers.py:50 | the stripped value neither starts nor ends with whitespace |
| Serializers.AtSurvivesStrip | core/serializers.py:50-51 | an "@" in the raw field is still in the stripped one |
| Serializers.AtComesFromInput | core/serializers.py:50-51 | an "@" in the stripped field was in the raw one |
| Serializers.StripKeepsAt | core/serializers.py:50-51 | a stripped field contains "@" exactly when the raw field does |
| Serializers.HasCsvSuffix | core/serializers.py:39 | a name passes only when it is some stem followed by ".csv" |
| Serializers.CsvSuffixIsExact | core/serializers.py:39 | every name ending in ".csv" passes, and one ending in ".CSV" does not |
| Serializers.Join | core/serializers.py:56 | joining nothing gives the empty string; otherwise the length is the values' total plus one separator between each pair |
| Serializers.ValidRow | core/serializers.py:50-51 | a row is valid exactly when it has a first field containing "@"; the import applies the same test at lines 76-77 |
| Serializers.ErrorText | core/serializers.py:38-59 | a bad file name reads "Invalid file type"; every read problem reads "Error reading CSV file: ..."; invalid values are listed as "Invalid emails found: " joined with ", " |
| Serializers.InvalidValues | core/serializers.py:47-52 | the collected values lack "@" and number at most the rows |
| Serializers.InvalidValuesFail | core/serializers.py:49-50 | the scan fails exactly when some row has no field |
| Serializers.InvalidValuesNoneFound | core/serializers.py:47-57 | nothing is collected exactly when every row's stripped first field contains "@" |
| Serializers.InvalidValuesComplete | core/serializers.py:49-52 | every row with a field but no "@" contributes its stripped field |
| Serializers.InvalidValuesInOrder | core/serializers.py:47-52 | the values are exactly those of such rows, one per row, in file order |
| Serializers.ScanRows | core/serializers.py:47-52 | the row loop computes `InvalidValues` |
| Serializers.CsvVerdict | core/serializers.py:38-61 | a name without ".csv" is rejected as an invalid file type and only then; acceptance needs a decodable file with a header row; reported invalid values are non-empty and are what the scan collected |
| Serializers.RejectedFiles | core/serializers.py:42-59 | a `.csv` file is rejected with: an undecodable content error when it does not decode; a missing header row when it has no rows; a missing field when a row after the header is empty; otherwise, when some row after the header has no "@", the invalid-emails error listing exactly the stripped values of those rows in file order |
| Serializers.AcceptedFiles | core/serializers.py:38-61 | a file is accepted exactly when its name ends in ".csv", it decodes, it has a header row, and every later row's first field contains "@" |
| Serializers.HeaderIsNotChecked | core/serializers.py:45 | the verdict does not depend on the header row |
| Serializers.ValidateCsvFile | core/serializers.py:38-61 | returns the upload exactly when `CsvVerdict` accepts, and otherwise its error; the stream is read to its end unless the name is rejected first |
| Serializers.NewAddresses | core/serializers.py:75-83 | the created addresses contain "@", were not stored before, and are distinct |
| Serializers.NewAddressesFail | core/serializers.py:75-76 | the import fails exactly when some row has no field |
| Serializers.NewAddressesComplete | core/serializers.py:75-83 | every valid row's address is stored afterwards, either from before or newly created |
| Serializers.NewAddressesSound | core/serializers.py:75-83 | every created address is the stripped first field of a valid row |
| Serializers.ImportOutcome | core/serializers.py:69-92 | the import succeeds exactly when the content decodes, has a header row, and no later row is empty; created addresses contain "@" and are new; an empty stream fails for lack of a header row |
| Serializers.Create | core/serializers.py:63-92 | on success the new addresses and their memberships of the list are added, and nothing else; on any problem nothing is written |
| Serializers.ListField | core/serializers.py:36 | the field resolves a value exactly when it is the key of a stored list, and then to that list; an instance is an incorrect type, an unknown key a missing object |
| Serializers.FileVerdict | core/serializers.py:35-61 | a 0-byte file is refused as empty before `validate_csv_file` runs; any other file passes exactly when `CsvVerdict` accepts, and otherwise carries that error |
| Serializers.ErrorsOf | core/serializers.py:34-61 | `is_valid()` holds exactly when the file is not empty, the CSV check accepts it and the list field resolves; the file's error is its `FileVerdict`, whatever the list field says |
| Serializers.SaveUpload | core/serializers.py:34-92 | as written, given a list key: field errors are reported as such; when both fields pass, `create` fails for lack of a header row; the store never changes |
| Serializers.SaveUploadRewound | core/serializers.py:34-92 | with the stream rewound: field errors change nothing; when both fields pass, every new address of the file's rows and its membership of the list are added, and nothing else |
| Serializers.AcceptedFileImports | core/serializers.py:38-92 | an accepted file imports without error; every row's address is then stored, and every created address comes from a row |
| Serializers.SecondReadFindsNoHeader | core/serializers.py:70-72 | on `list.csv` holding `email` and `a@x.com`, validation accepts, the second read of the spent stream fails for lack of a header row, and a rewound read would import `a@x.com` |
| Serializers.ValidateMembership | core/serializers.py:127-146 | the first failing check decides the error (no request, unknown address, list missing or not the requester's, already a member); when all pass, the attributes come back unchanged |
| Serializers.CreateMembership | core/serializers.py:148-155 | an unknown address raises DoesNotExist, an existing pair raises IntegrityError, and otherwise exactly that one membership is added |
| Serializers.ValidatedMembershipIsNew | core/serializers.py:127-155 | what `validate` accepts refers to a stored address and is not yet a member, so `create` adds exactly one row |

## Left out

- Request ids (`maillist` at `core/views.py:33`, `campaign` at `core/views.py:93` and `core/views.py:131`) are modelled as naturals or absent. A non-numeric value such as "abc" makes the lookups at `core/views.py:40`, `core/views.py:94` and `core/views.py:137-139` raise ValueError ("Field 'id' expected a number"), an HTTP 500; that error path is not modelled.
- Timestamps (`created_at`, `updated_at`, `unsubscribed_at`) are not modelled; `auto_now` fields change nothing the code reads.
- Database failures of `save()`, `bulk_create` and `get_or_create`, and concurrent writers, are not modelled; each call is one atomic step.
- The Celery runtime is not modelled: retries, redelivery, workers running in parallel, and the task running only later. An enqueued task is a recorded call, and `send_mail_task` is modelled as one run on given inputs.
- Django's `EmailBackend`, `EmailMessage.send`, `attach_file` and `campaign.get_attachments()` are replaced by the `Smtp` value. It says whether each one raises, and which paths a campaign has. A send that does not raise counts as sent; that includes a job whose `to` is empty, since Django's `send()` then returns 0 without contacting the server.
- Which addresses `campaign.get_all_emails()` returns is a parameter, as is which of them the `OutgoingMailSerializer` field validation rejects.
- `get_success_headers` and the serialized job data are not modelled; a 201 carries the created ids.
- The enqueue-then-save order inside the send loop is kept, but no model reader can observe the order.
- The queryset order of the pending jobs is any order.
- `CsvVerdict`, `ImportOutcome` and `ErrorText` do not model DRF's `str(ValidationError)`. The code wraps the invalid-emails message in a list representation when it re-raises it as "Error reading CSV file: ...".
- CSV parsing is not modelled: quoting, `splitlines` and UTF-8 decoding. An upload is given as the rows `csv.reader` yields plus a decodable flag.
- `ErrorText` does not model the exact text of Python's own exception messages.
- The `ignore_conflicts` bulk inserts are modelled as set unions. The `Email` rows are already written by `get_or_create` inside the same transaction.
- An upload is either present or absent; a present upload with an empty name, which Django treats as falsy at `core/views.py:34`, is not modelled.
- Failed inserts consume ids of the database sequence; `JobTable.Insert` allocates an id only when a row is stored.
- The validation of `to` by `OutgoingMailSerializer` (length, blank) is the set of addresses it rejects, checked on the raw address; the stripped address is what is stored.
- These parts of the repository are not part of this model: the remaining serializers and views (CRUD glue), `account/*`, `utils.py`, `mailer/celery.py`, `core/urls.py` and `core/permissions.py`.

## Findings

| source | as written | input that shows it | evidently intended | confidence | as-written member | corrected member |
|---|---|---|---|---|---|---|
| core/views.py:120 | the response headers are taken from `serializer`, which is bound only inside the loop over the campaign's addresses | a campaign whose `get_all_emails()` is empty: `serializer` is unbound, UnboundLocalError, HTTP 500 | 201 with an empty list | not executed | Views.EmptyCampaignIsServerError | Views.CreatePendingMailsCorrected |
| core/views.py:123-124 | `perform_create` calls `save()` with no user, and OutgoingMailSerializer (core/serializers.py:213-224) has no `user` field, so the "user" entry of the data is dropped; the user column (core/models.py:96) is NOT NULL | a campaign with one address `a@x.com` that the serializer accepts: the INSERT raises IntegrityError, HTTP 500, no job created | `save(user=request.user)`: one pending job per address, 201 with their ids | not executed | Views.MissingUserIsServerError | Views.CreatePendingMailsCorrected |
| core/serializers.py:70 | `create` reads the upload stream that `validate_csv_file` (line 43) already read to its end | at the serializer level, with a valid list key: `list.csv` holding the rows `email` and `a@x.com` is accepted, `create` reads nothing, `next(reader)` raises StopIteration, and the request fails with "Error processing CSV file: " having imported nothing | rewind the stream before `create` reads it, so that accepted files are imported | not executed | Serializers.SecondReadFindsNoHeader | Serializers.SaveUploadRewound |
| core/views.py:49-51 | the serializer's `maillist` field, a PrimaryKeyRelatedField, is given the MailList instance found at line 40 rather than its key | any upload to a list the requester owns: the field reports "Incorrect type", `is_valid()` is False, HTTP 400, nothing imported | pass `maillist.id`, so that an accepted file of an owned list is imported | not executed | Views.InstanceIsNotAPk | Views.AddBulkEmailsCorrected |
