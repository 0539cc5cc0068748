# S3 antivirus scanner worker, modelled in Dafny

The worker takes S3 "object created" notifications from an SQS queue. For each
object it does four things:

- downloads the object to a temporary file and hashes it with SHA-256;
- scans it with `clamscan`;
- files an infected object in a quarantine bucket, tags the original INFECTED
  and sends an SNS alert;
- tags a clean object CLEAN.

A message is deleted from the queue only when processing it returned `True`.
Otherwise the message stays in the queue, and redelivery is the only retry.

The model covers the worker's decision logic in `scanner_worker.py`:

- `ClamAV` models `scan_file_with_clamav`. It turns the scanner's exit status
  and report into a three-way verdict. It reads the signature name from the
  report with `strip`, `split(":")`, `replace("FOUND", "")` and the `in`
  operator. These Python string methods are written out in `PyStr`.
- `Hashing` models the chunked read loop of `calculate_file_hash`.
- `Calendar` models the `%Y/%m/%d` date partition and `Disposition` models the
  quarantine key. `Disposition` also models the writes of
  `move_to_quarantine`, `tag_file_as_clean` and `send_sns_notification`.
- `Worker` is the body of the loop over records. `Event` is
  `process_s3_event`.
- `MainLoop` is one receive-process-delete turn of `main`.

Every call the worker makes to the outside is recorded as an `Action`, in
order:

- creating and removing the temporary file;
- the download and the scan;
- the copy, the tagging and the publish;
- the delete of the message.

The service answers are inputs: downloaded bytes or a failed download, the
scanner's run, clock readings, and how each write was answered.
A write can be accepted, refused with a `ClientError` (which the helper catches
and reports), or fail with another exception (which escapes to
`process_s3_event`'s catch-all, so the function returns `False`). The methods
`ProcessRecord`, `ProcessS3Event`, `HandleRecords`, `PollOnce` and
`CalculateFileHash` follow the source's loops and early returns. Each is proved
equal to a specification function, and the properties are proved as lemmas
about those functions.

Behaviour of the code worth noting:

- A download that fails, for a missing object as for any other reason, makes
  `process_s3_event` return `False`, so the message is redelivered. It is not
  treated as done.
- A `ClientError` from the copy, the tagging or the publish is logged and
  ignored: the event can still return `True`. Only other exceptions from these
  calls make it return `False`. A failing alert is not always harmless either:
  an exception other than `ClientError` makes the event return `False`.
- The first record that fails ends the event. Later records of the same message
  are not processed. Records already handled are not undone.
- An exception while a message is handled ends the rest of that receive's
  batch. This covers a missing receipt handle and a failed delete.

## Model

| member | source | states |
|---|---|---|
| ClamAV.Classify | scanner_worker.py:59-102 | The verdict is clean exactly on exit status 0 and infected exactly on exit status 1, whatever the report says. Every other status, a timeout or an exception is indeterminate, with output starting "ERROR: ". A clean or infected verdict keeps the stripped stdout as its output. An infected verdict's name is the parsed signature. |
| ClamAV.ParseVirusName | scanner_worker.py:85-92 | The name is "Unknown" unless the report contains FOUND and a colon. When parsed, it never contains a colon and never starts or ends with whitespace. |
| ClamAV.ErrorOutputs | scanner_worker.py:93-102 | An indeterminate run has no infected flag and no name. Its output is "ERROR: " followed by the stderr, by "Scan timeout" or by the exception's message. |
| ClamAV.DetectionReportName | scanner_worker.py:88-91 | Parsing a `<path>: <name> FOUND` report gives back the name, for any path and name without colons whose name has no FOUND and no whitespace at its ends. |
| ClamAV.DetectionClassified | scanner_worker.py:75-92 | Exit status 1 with such a report line on stdout is classified infected under exactly that name, and the output is the report without its newline. |
| ClamAV.ReportSecondField | scanner_worker.py:89-91 | The report's second `split(":")` field is the name between a space and " FOUND". |
| ClamAV.StripReportLine | scanner_worker.py:75 | Stripping the report line removes only its trailing newline. |
| ClamAV.EicarSignatureReadable | scanner_worker.py:85-92 | The EICAR test signature has no colon and no FOUND, and starts and ends with a letter, so the detection lemmas apply to it. |
| ClamAV.LetterBoundedClassified | scanner_worker.py:75-92 | Exit status 1 with the report line of a signature that has no colon and no FOUND and starts and ends with a letter is classified infected under that signature, with the report line as output. |
| ClamAV.EicarClassified | scanner_worker.py:75-92 | For every path without a colon and without leading whitespace, the report of the EICAR test file is classified infected under "Eicar-Test-Signature", with the stripped report line as output. |
| PyStr.Split | scanner_worker.py:89 | `str.split(sep)` gives at least one part. It gives more than one exactly when the separator occurs. No part contains the separator. |
| PyStr.SplitJoin | scanner_worker.py:89 | Joining the parts of a split with the separator gives back the string. |
| PyStr.SplitSecond | scanner_worker.py:89-91 | The first part is the text before the first separator, and the second part is the text up to the next separator. |
| PyStr.StripTrimmed | scanner_worker.py:75 | `str.strip()` leaves no whitespace at either end. |
| PyStr.StripPadded | scanner_worker.py:75 | Stripping removes exactly the whitespace padding around a trimmed string. |
| PyStr.StripKeepsOut | scanner_worker.py:91 | Stripping adds no character. |
| PyStr.ContainsAt | scanner_worker.py:88 | The `in` operator on strings holds exactly when the pattern occurs at some position. |
| PyStr.RemoveAllKeepsOut | scanner_worker.py:91 | `replace(p, "")` adds no character. |
| PyStr.RemoveAbsent | scanner_worker.py:91 | Removing an absent pattern leaves the string unchanged. |
| PyStr.RemoveBeforeOccurrence | scanner_worker.py:91 | Text before the first occurrence of the pattern is kept as it is. The rest is processed after the occurrence. |
| Hashing.CalculateFileHash | scanner_worker.py:50-56 | The file is read in pieces of 4096 bytes until an empty read. Every piece but the last is full. The pieces make up the whole file, and the digest returned is that of the whole file. |
| Hashing.FlattenAppend | scanner_worker.py:54-55 | Absorbing a piece after the others is absorbing their concatenation. |
| Hashing.ChunkingUnique | scanner_worker.py:54 | Two chunked readings of the same bytes are the same reading. |
| Calendar.DatePartition | scanner_worker.py:120 | `strftime('%Y/%m/%d')` of a date with a four-digit year has ten characters, with slashes at positions 4 and 7. |
| Calendar.PartitionRoundTrip | scanner_worker.py:120 | Every valid date is read back from its partition. |
| Calendar.ParseRoundTrip | scanner_worker.py:120 | Every string that reads as a valid date is that date's partition. |
| Calendar.PartitionInjective | scanner_worker.py:120 | Different dates are filed under different partitions. |
| Disposition.OrUnknown | scanner_worker.py:128 | `virus_name or 'Unknown'` is never empty. It keeps a non-empty name and replaces an empty one. |
| Disposition.QuarantineKey | scanner_worker.py:120 | Reference definition of the quarantine key: "infected/", the date partition, "/", the hash, "_" and the key. `QuarantineKeyLayout` and `QuarantineKeyInjective` state its properties. |
| Disposition.QuarantineKeyLayout | scanner_worker.py:120 | The quarantine key is "infected/", then the date partition, a slash, the hash, an underscore and the original key. Each field is read back. |
| Disposition.QuarantineKeyInjective | scanner_worker.py:120 | For hashes of equal length, equal quarantine keys have the same date, hash and original key. |
| Disposition.QuarantineMetadata | scanner_worker.py:127-133 | Reference definition of the copy's five metadata entries, in source order. `MetadataLookup` states their values. |
| Disposition.InfectedTags | scanner_worker.py:144-150 | Reference definition of the three infected tags, in source order. `InfectedTagsLookup` states their values. |
| Disposition.CleanTags | scanner_worker.py:166-172 | Reference definition of the three clean tags, in source order. `CleanTagsLookup` states their values. |
| Disposition.MetadataLookup | scanner_worker.py:127-133 | The copy's metadata holds the virus name (or "Unknown"), the original bucket, the original key, the copy timestamp and the hash. |
| Disposition.InfectedTagsLookup | scanner_worker.py:144-150 | The infected tag set has ScanStatus INFECTED, the virus name (or "Unknown") and the timestamp. |
| Disposition.CleanTagsLookup | scanner_worker.py:166-172 | The clean tag set has ScanStatus CLEAN, the timestamp and the hash. |
| Disposition.MoveToQuarantine | scanner_worker.py:116-157 | The quarantine key is returned exactly when both writes are accepted. An exception escapes exactly when the copy, or the tagging after an accepted copy, fails other than by `ClientError`. The tagging is made only after an accepted copy. |
| Disposition.QuarantineCopyFirst | scanner_worker.py:120-137 | The first call copies the original into the quarantine bucket under the quarantine key, with replaced metadata, AES-256 encryption and the looked-up metadata values. |
| Disposition.QuarantineTagsAfterCopy | scanner_worker.py:139-151 | There is a tagging exactly when the copy is accepted. It is the second call and marks the original INFECTED with the name and timestamp. |
| Disposition.TagFileAsClean | scanner_worker.py:160-178 | Exactly one tagging of the object is made, with the clean tag set. An exception escapes exactly on a failure other than `ClientError`. `True` is returned exactly when the tagging is accepted. |
| Disposition.AlertSubject | scanner_worker.py:255 | The subject is a fixed 22-character prefix followed by the virus name. |
| Disposition.SendSnsNotification | scanner_worker.py:181-193 | Exactly one publish to the configured topic is made. An exception escapes exactly on a failure other than `ClientError`. `True` is returned exactly when the publish is accepted. |
| Worker.Dispose | scanner_worker.py:242-283 | Only copies, taggings and publishes are made after the scan. An indeterminate verdict ends the event with no write. |
| Worker.RecordWith | scanner_worker.py:219-288 | Reference definition of one record's calls and outcome for a given verdict. The Worker lemmas state its properties for every verdict. |
| Worker.RecordEffects | scanner_worker.py:219-288 | Reference definition of one record's calls and outcome: `RecordWith` applied to the classification of the scanner's run. |
| Worker.ProcessRecord | scanner_worker.py:219-288 | The loop body equals the record's specification. A malformed record fails at once. A failed download returns early after removing the file. Otherwise the object is hashed, scanned and disposed of, and the temporary file is removed last. |
| Worker.TempFileLifetime | scanner_worker.py:227-288 | For every verdict, the temporary file of a well-formed record is created first and removed last, and no other temporary file is created or removed in between. A malformed record makes no call. |
| Worker.FailedFetchOrScanWritesNothing | scanner_worker.py:232-288 | A failed download or an indeterminate verdict ends the event with no copy, tagging or publish. Only the download (and the scan) precede the removal of the file. |
| Worker.InfectedDisposalCases | scanner_worker.py:247-276 | Gives the exact calls for an infected object under every combination of write answers, and whether the event goes on. |
| Worker.InfectedDisposalCopy | scanner_worker.py:247-251 | The first write is the only copy, into the quarantine bucket under the quarantine key. Every tagging marks the object INFECTED. |
| Worker.InfectedDisposalAlert | scanner_worker.py:251-276 | An alert is sent, last and once, exactly when the quarantine step raised nothing but `ClientError`s. It names the topic, subject, virus and hash, and the quarantine key only when both quarantine writes were accepted. |
| Worker.InfectedRecordCopy | scanner_worker.py:232-251 | For a downloaded, infected object, the call right after the scan is the only copy, and every tagging is INFECTED. |
| Worker.InfectedRecordAlert | scanner_worker.py:247-288 | For a downloaded, infected object, exactly one alert follows the quarantine step unless that step raised something other than a `ClientError`. The record completes exactly when no such exception escaped. |
| Worker.CleanRecordEffects | scanner_worker.py:278-288 | For a downloaded, clean object, exactly one write is made: the CLEAN tagging of the object with its hash. The record completes unless that tagging fails other than by `ClientError`. |
| Worker.RecordNeverDeletes | scanner_worker.py:219-288 | Handling a record never deletes the message. |
| Event.Run | scanner_worker.py:219-290 | Reference definition of the records loop over the record steps: the first aborted step ends it with `False`, otherwise `True` with all the calls. `RunEnds` characterises it. |
| Event.ProcessEvent | scanner_worker.py:200-294 | Reference definition of `process_s3_event`, whose properties `EventSucceedsIffAllComplete`, `AbortStopsEvent`, `MalformedRecordEndsEvent` and `EventNeverDeletes` state. |
| Event.ProcessS3Event | scanner_worker.py:200-294 | Equals the event's specification. An unparsable body returns `False` with no call. A body without `Records` returns `True` with no call. |
| Event.HandleRecords | scanner_worker.py:219-290 | The records loop equals the run of the record steps: it stops at the first aborted record and returns `True` after the last. |
| Event.RunEnds | scanner_worker.py:219-290 | When step j is the first aborted one, or there is none, the run ends there with the calls of the steps up to it. |
| Event.EventSucceedsIffAllComplete | scanner_worker.py:219-290 | `process_s3_event` returns `True` exactly when every record completes. Its calls are then all the records' calls in order. |
| Event.AbortStopsEvent | scanner_worker.py:232-294 | The first aborted record ends the event with `False`. The calls are those of the records up to and including it, whatever the later records are. |
| Event.MalformedRecordEndsEvent | scanner_worker.py:220-222 | A record missing a field ends the event with `False` before any call for it. |
| Event.EventNeverDeletes | scanner_worker.py:200-294 | `process_s3_event` never deletes the message. |
| MainLoop.HandleMessage | scanner_worker.py:327-341 | Reference definition of handling one message: read the handle, process the event, delete on `True`. `DeleteIffProcessed` characterises it. |
| MainLoop.Drain | scanner_worker.py:327-348 | Reference definition of the loop over a response's messages: each message's calls in order, stopping after the first that raises. |
| MainLoop.TurnEffects | scanner_worker.py:313-348 | Reference definition of one turn: no call when the receive raised or returned no messages, otherwise `Drain` of the messages. `TurnDeletesOnlyProcessed` states its property. |
| MainLoop.HandleMessageStep | scanner_worker.py:327-341 | Equals the message's specification. A missing receipt handle raises before processing. A message processed with `False` is left in the queue, and one processed with `True` is deleted. |
| MainLoop.PollOnce | scanner_worker.py:313-348 | One turn of the loop equals the turn's specification. Messages are handled in order until one raises. |
| MainLoop.DeleteIffProcessed | scanner_worker.py:327-341 | A message is deleted exactly when it has a receipt handle and its event returned `True`. The delete is the last and only delete made for it, names the queue and the handle, and `True` comes back exactly when the delete is accepted. |
| MainLoop.TurnDeletesOnlyProcessed | scanner_worker.py:327-341 | Every delete in a turn names the queue and the receipt handle of a message whose event returned `True`. |

## Left out

- The SHA-256 digest and `unquote_plus` (form-decoding of the object key, section 5.1 of the WHATWG URL Standard) are function-valued inputs (`Worker.Oracles`). JSON parsing of the message body is replaced by its result: `Worker.Body` and `Worker.RawRecord`.
- boto3, `subprocess` and `tempfile` are not executed. Their outcomes are inputs, and their calls are recorded as `Effects.Action`s. A temporary file that cannot be created, and a read error while hashing, are not modelled: both only make the event return `False`.
- The `os.path.exists` check before the removal is taken to be true, because nothing removes the file created at line 227 before line 287. `RemoveTemp` is therefore unconditional. A failing `os.remove` is not modelled; it would turn a completed record into `False` through the catch-all.
- Logging calls are not recorded in the action log.
- The download's `ClientError` and its other exceptions both appear as a missing download, because both make `process_s3_event` return `False` after removing the file.
- `datetime.utcnow()` is an input: the date of the quarantine key and the `isoformat()` stamps are given per record. Dates before year 1000 are out of scope (`Calendar.ValidDate`), because `%Y` would not give four digits there.
- The text of the SNS alert body is not modelled. `Effects.Alert` carries the facts it reports, and the subject line is modelled in full.
- The `while True` loop itself, long polling, the visibility timeout, `KeyboardInterrupt`, the `clamscan --version` check at start-up, and the receive call are left out. One turn of the loop is modelled (`MainLoop.PollOnce`), with the receive's result as an input.
- Concurrency between several workers and the redelivery behaviour of SQS are outside the program.
