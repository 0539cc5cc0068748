/** `process_s3_event`: one queue message carrying an S3 event is handled
    record by record. Each record's object is downloaded to a temporary file,
    hashed and scanned; an infected object is quarantined and an alert is sent,
    a clean one is tagged. The first record whose download or scan fails, or
    whose writes raise something other than a `ClientError`, ends the event
    with `False`; the temporary file is removed on every path. */
module Worker {
  import opened Common
  import opened Calendar
  import opened ClamAV
  import opened Effects
  import opened Disposition
  import opened Hashing

  /** One element of the event's `Records` list, as far as the worker reads it. */
  datatype RawRecord =
    | Malformed                                           // s3.bucket.name, s3.object.key or s3.object.size is missing
    | S3Record(bucket: string, rawKey: string, size: int) // the key still URL-encoded

  /** The message body after `json.loads`. */
  datatype Body =
    | Unparsable                       // the body is missing or is not JSON
    | NoRecords                        // JSON without a `Records` member
    | Records(records: seq<RawRecord>)

  /** The library functions the model does not define: `unquote_plus` (form
      decoding of the object key) and the SHA-256 hex digest. */
  datatype Oracles = Oracles(unquotePlus: string -> string, sha256Hex: seq<byte> -> string)

  /** Everything the environment answers while one record is handled: the
      temporary file's name, the downloaded bytes (`None` when the download
      failed), how the scanner ran, the clock readings (the quarantine date and
      the `isoformat()` stamps of the copy, the tagging and the alert), and how
      the copy, the tagging and the publish were answered. */
  datatype RecordAnswers = RecordAnswers(
    tmpPath: string,
    download: Option<seq<byte>>,
    scan: Invocation,
    today: ValidDate,
    copiedAt: string,
    taggedAt: string,
    alertedAt: string,
    copy: WriteAnswer,
    tag: WriteAnswer,
    publish: WriteAnswer)

  /** How handling one record ended: it ran to completion, or the event ends
      here with `False`. */
  datatype Step = Completed(log: seq<Action>) | Aborted(log: seq<Action>)

  function Finish(log: seq<Action>, thrown: bool): Step {
    if thrown then Aborted(log) else Completed(log)
  }

  /** What follows the scan: `None` ends the event; an infected object is
      quarantined and an alert is sent; a clean one is tagged. The step is
      aborted when a helper lets an exception other than a `ClientError`
      escape. */
  function Dispose(cfg: Config, bucket: string, key: string, size: int, fileHash: string,
                   outcome: ScanOutcome, a: RecordAnswers): (d: Step)
    ensures forall i :: 0 <= i < |d.log| ==> d.log[i].IsWrite()
    ensures outcome.Indeterminate? ==> d == Aborted([])
  {
    match outcome
    case Indeterminate(_) => Aborted([])
    case Clean(_) =>
      var t := TagFileAsClean(bucket, key, fileHash, a.taggedAt, a.tag);
      Finish(t.log, t.Throw?)
    case Infected(name, output) =>
      var q := MoveToQuarantine(cfg, bucket, key, name, fileHash, a.today,
                                a.copiedAt, a.taggedAt, a.copy, a.tag);
      if q.Throw? then Aborted(q.log)
      else
        var alert := Alert(key, bucket, name, fileHash, size, a.alertedAt,
                           cfg.quarantineBucket, q.value, output);
        var n := SendSnsNotification(cfg, AlertSubject(name), alert, a.publish);
        Finish(q.log + n.log, n.Throw?)
  }

  /** The calls made for one record and how it ends, once the scanner's
      verdict is known. */
  function RecordWith(cfg: Config, o: Oracles, record: RawRecord, a: RecordAnswers,
                      verdict: ScanOutcome): Step
  {
    match record
    case Malformed => Aborted([])
    case S3Record(bucket, rawKey, size) =>
      var key := o.unquotePlus(rawKey);
      var path := a.tmpPath;
      var fetched := [CreateTemp(path), Download(bucket, key, path)];
      match a.download
      case None => Aborted(fetched + [RemoveTemp(path)])
      case Some(content) =>
        var d := Dispose(cfg, bucket, key, size, o.sha256Hex(content), verdict, a);
        Finish(fetched + [Scan(path)] + d.log + [RemoveTemp(path)], d.Aborted?)
  }

  /** The calls made for one record and how it ends, the verdict being the
      classification of the scanner's run. */
  function RecordEffects(cfg: Config, o: Oracles, record: RawRecord, a: RecordAnswers): Step
  {
    RecordWith(cfg, o, record, a, Classify(a.scan))
  }

  /** The body of the loop over records: fetch, hash, scan, act on the verdict,
      and remove the temporary file whatever happened. */
  method ProcessRecord(cfg: Config, o: Oracles, record: RawRecord, a: RecordAnswers)
    returns (step: Step)
    ensures step == RecordEffects(cfg, o, record, a)
  {
    if record.Malformed? {
      return Aborted([]);
    }
    var bucket, key, size := record.bucket, o.unquotePlus(record.rawKey), record.size;
    var path := a.tmpPath;
    var fetched := [CreateTemp(path), Download(bucket, key, path)];
    if a.download.None? {
      // `return False` inside the `try`; the `finally` clause still removes the file
      return Aborted(fetched + [RemoveTemp(path)]);
    }
    var fileHash, blocks := CalculateFileHash(a.download.value, o.sha256Hex);
    var outcome := Classify(a.scan);
    var written: seq<Action> := [];
    var thrown := false;
    if outcome.Indeterminate? {
      thrown := true;
    } else if outcome.Infected? {
      var q := MoveToQuarantine(cfg, bucket, key, outcome.virusName, fileHash, a.today,
                                a.copiedAt, a.taggedAt, a.copy, a.tag);
      written := q.log;
      if q.Throw? {
        thrown := true;
      } else {
        var alert := Alert(key, bucket, outcome.virusName, fileHash, size, a.alertedAt,
                           cfg.quarantineBucket, q.value, outcome.output);
        var n := SendSnsNotification(cfg, AlertSubject(outcome.virusName), alert, a.publish);
        written := written + n.log;
        thrown := n.Throw?;
      }
    } else {
      var t := TagFileAsClean(bucket, key, fileHash, a.taggedAt, a.tag);
      written := t.log;
      thrown := t.Throw?;
    }
    step := Finish(fetched + [Scan(path)] + written + [RemoveTemp(path)], thrown);
  }

  /** The log makes no write to the object store and sends no alert. */
  predicate NoWrites(log: seq<Action>) {
    forall i :: 0 <= i < |log| ==> !log[i].IsWrite()
  }

  /** The calls made for a downloaded record, around its disposition writes. */
  lemma DownloadedShape(path: string, bucket: string, key: string, mid: seq<Action>)
    ensures var log := [CreateTemp(path), Download(bucket, key, path)] + [Scan(path)] + mid
                       + [RemoveTemp(path)];
      |log| == |mid| + 4 && log[0] == CreateTemp(path) && log[1] == Download(bucket, key, path)
      && log[2] == Scan(path) && log[|log| - 1] == RemoveTemp(path)
      && forall i :: 3 <= i < |log| - 1 ==> log[i] == mid[i - 3]
  {
  }

  /** A record that is read at all gets its temporary file created first and
      removed last, and no other temporary file is created or removed in
      between; a malformed record fails before any call. */
  lemma TempFileLifetime(cfg: Config, o: Oracles, record: RawRecord, a: RecordAnswers,
                         verdict: ScanOutcome)
    ensures var log := RecordWith(cfg, o, record, a, verdict).log;
      (record.Malformed? ==> log == [])
      && (record.S3Record? ==>
            |log| >= 3 && log[0] == CreateTemp(a.tmpPath) && log[|log| - 1] == RemoveTemp(a.tmpPath)
            && forall i :: 0 < i < |log| - 1 ==> !log[i].CreateTemp? && !log[i].RemoveTemp?)
  {
    match record
    case Malformed =>
    case S3Record(bucket, rawKey, size) =>
      var key := o.unquotePlus(rawKey);
      if a.download.Some? {
        var d := Dispose(cfg, bucket, key, size, o.sha256Hex(a.download.value), verdict, a);
        DownloadedShape(a.tmpPath, bucket, key, d.log);
      }
  }

  /** A failed download or an indeterminate scan ends the event: nothing is
      tagged, copied or published, and only the temporary file is cleaned up
      after the calls already made. */
  lemma FailedFetchOrScanWritesNothing(cfg: Config, o: Oracles, bucket: string, rawKey: string,
                                       size: int, a: RecordAnswers, verdict: ScanOutcome)
    requires a.download.None? || verdict.Indeterminate?
    ensures var s := RecordWith(cfg, o, S3Record(bucket, rawKey, size), a, verdict);
      s.Aborted? && NoWrites(s.log)
      && s.log[1] == Download(bucket, o.unquotePlus(rawKey), a.tmpPath)
      && (a.download.None? ==> |s.log| == 3)
      && (a.download.Some? ==> |s.log| == 4 && s.log[2] == Scan(a.tmpPath))
  {
  }

  /** The writes for an infected object, for each way the services can answer. */
  lemma InfectedDisposalCases(cfg: Config, bucket: string, key: string, size: int, fileHash: string,
                              name: string, output: string, a: RecordAnswers)
    ensures var d := Dispose(cfg, bucket, key, size, fileHash, Infected(name, output), a);
      var qkey := QuarantineKey(a.today, fileHash, key);
      var c := CopyObject(bucket, key, cfg.quarantineBucket, qkey,
                          QuarantineMetadata(name, bucket, key, a.copiedAt, fileHash), "REPLACE", "AES256");
      var t := PutTagging(bucket, key, InfectedTags(name, a.taggedAt));
      var alert := Alert(key, bucket, name, fileHash, size, a.alertedAt, cfg.quarantineBucket, None, output);
      var p := Publish(cfg.topicArn, AlertSubject(name), alert);
      var pk := Publish(cfg.topicArn, AlertSubject(name), alert.(quarantineKey := Some(qkey)));
      (d.Completed? <==> !(a.copy == OtherFailure || (a.copy == Accepted && a.tag == OtherFailure))
                         && a.publish != OtherFailure)
      && (a.copy == OtherFailure ==> d.log == [c])
      && (a.copy == ClientFailure ==> d.log == [c, p])
      && (a.copy == Accepted && a.tag == OtherFailure ==> d.log == [c, t])
      && (a.copy == Accepted && a.tag == ClientFailure ==> d.log == [c, t, p])
      && (a.copy == Accepted && a.tag == Accepted ==> d.log == [c, t, pk])
  {
  }

  /** The quarantine copy is the first write for an infected object and the
      only copy; every tagging marks the object INFECTED. */
  lemma InfectedDisposalCopy(cfg: Config, bucket: string, key: string, size: int, fileHash: string,
                             name: string, output: string, a: RecordAnswers)
    ensures var d := Dispose(cfg, bucket, key, size, fileHash, Infected(name, output), a);
      |d.log| >= 1 && d.log[0].CopyObject? && d.log[0].bucket == cfg.quarantineBucket
      && d.log[0].key == QuarantineKey(a.today, fileHash, key)
      && (forall i :: 0 <= i < |d.log| && d.log[i].CopyObject? ==> i == 0)
      && (forall i :: 0 <= i < |d.log| && d.log[i].PutTagging? ==>
            Lookup(d.log[i].tags, "ScanStatus") == Some("INFECTED"))
  {
    InfectedDisposalCases(cfg, bucket, key, size, fileHash, name, output, a);
    InfectedTagsLookup(name, a.taggedAt);
  }

  /** The alert for an infected object is sent, last and once, exactly when
      the quarantine step let no exception escape; it names the topic, the
      virus and the hash, and the quarantine key only when both quarantine
      writes were accepted. The event goes on only if the publish, too, raised
      nothing but a `ClientError`. */
  lemma InfectedDisposalAlert(cfg: Config, bucket: string, key: string, size: int, fileHash: string,
                              name: string, output: string, a: RecordAnswers)
    ensures var d := Dispose(cfg, bucket, key, size, fileHash, Infected(name, output), a);
      var threw := a.copy == OtherFailure || (a.copy == Accepted && a.tag == OtherFailure);
      (d.Completed? <==> !threw && a.publish != OtherFailure)
      && ((exists i :: 0 <= i < |d.log| && d.log[i].Publish?) <==> !threw)
      && (!threw ==>
            var p := |d.log| - 1;
            0 < p && d.log[p].Publish? && d.log[p].topic == cfg.topicArn
            && d.log[p].subject == AlertSubject(name)
            && d.log[p].alert.virusName == name && d.log[p].alert.fileHash == fileHash
            && d.log[p].alert.quarantineKey
               == (if a.copy == Accepted && a.tag == Accepted
                   then Some(QuarantineKey(a.today, fileHash, key)) else None)
            && forall i :: 0 <= i < |d.log| && d.log[i].Publish? ==> i == p)
  {
    InfectedDisposalCases(cfg, bucket, key, size, fileHash, name, output, a);
    var d := Dispose(cfg, bucket, key, size, fileHash, Infected(name, output), a);
    if !(a.copy == OtherFailure || (a.copy == Accepted && a.tag == OtherFailure)) {
      assert d.log[|d.log| - 1].Publish?;
    }
  }

  /** An infected object: exactly one copy into quarantine, issued right after
      the scan, and the original is tagged INFECTED and never CLEAN. */
  lemma InfectedRecordCopy(cfg: Config, o: Oracles, bucket: string, rawKey: string,
                           size: int, a: RecordAnswers, verdict: ScanOutcome)
    requires a.download.Some? && verdict.Infected?
    ensures var s := RecordWith(cfg, o, S3Record(bucket, rawKey, size), a, verdict);
      var key := o.unquotePlus(rawKey);
      s.log[3].CopyObject? && s.log[3].bucket == cfg.quarantineBucket
      && s.log[3].key == QuarantineKey(a.today, o.sha256Hex(a.download.value), key)
      && (forall i :: 0 <= i < |s.log| && s.log[i].CopyObject? ==> i == 3)
      && (forall i :: 0 <= i < |s.log| && s.log[i].PutTagging? ==>
            Lookup(s.log[i].tags, "ScanStatus") == Some("INFECTED"))
  {
    var key := o.unquotePlus(rawKey);
    var fileHash := o.sha256Hex(a.download.value);
    var d := Dispose(cfg, bucket, key, size, fileHash, verdict, a);
    InfectedDisposalCopy(cfg, bucket, key, size, fileHash, verdict.virusName, verdict.output, a);
    DownloadedShape(a.tmpPath, bucket, key, d.log);
  }

  /** An infected object: exactly one alert follows the quarantine step unless
      that step raised something other than a `ClientError`, and it carries the
      quarantine key only when both quarantine writes were accepted.
      `ClientError`s are ignored; any other failure ends the event. */
  lemma InfectedRecordAlert(cfg: Config, o: Oracles, bucket: string, rawKey: string,
                            size: int, a: RecordAnswers, verdict: ScanOutcome)
    requires a.download.Some? && verdict.Infected?
    ensures var s := RecordWith(cfg, o, S3Record(bucket, rawKey, size), a, verdict);
      var key := o.unquotePlus(rawKey);
      var fileHash := o.sha256Hex(a.download.value);
      var name := verdict.virusName;
      var threw := a.copy == OtherFailure || (a.copy == Accepted && a.tag == OtherFailure);
      (s.Completed? <==> !threw && a.publish != OtherFailure)
      && ((exists i :: 0 <= i < |s.log| && s.log[i].Publish?) <==> !threw)
      && (!threw ==>
            var p := |s.log| - 2;
            3 < p && s.log[p].Publish? && s.log[p].topic == cfg.topicArn
            && s.log[p].subject == AlertSubject(name)
            && s.log[p].alert.virusName == name && s.log[p].alert.fileHash == fileHash
            && s.log[p].alert.quarantineKey
               == (if a.copy == Accepted && a.tag == Accepted
                   then Some(QuarantineKey(a.today, fileHash, key)) else None)
            && forall i :: 0 <= i < |s.log| && s.log[i].Publish? ==> i == p)
  {
    var key := o.unquotePlus(rawKey);
    var fileHash := o.sha256Hex(a.download.value);
    var d := Dispose(cfg, bucket, key, size, fileHash, verdict, a);
    InfectedDisposalAlert(cfg, bucket, key, size, fileHash, verdict.virusName, verdict.output, a);
    DownloadedShape(a.tmpPath, bucket, key, d.log);
    var s := RecordWith(cfg, o, S3Record(bucket, rawKey, size), a, verdict);
    assert s.log == [CreateTemp(a.tmpPath), Download(bucket, key, a.tmpPath)] + [Scan(a.tmpPath)]
                    + d.log + [RemoveTemp(a.tmpPath)];
    assert s.Completed? <==> d.Completed?;
    if !(a.copy == OtherFailure || (a.copy == Accepted && a.tag == OtherFailure)) {
      assert s.log[|s.log| - 2] == d.log[|d.log| - 1];
    }
  }

  /** A clean object: exactly one write, the CLEAN tagging of the original with
      the content hash; nothing is copied or published. A `ClientError` is
      ignored; any other failure ends the event. */
  lemma CleanRecordEffects(cfg: Config, o: Oracles, bucket: string, rawKey: string,
                           size: int, a: RecordAnswers, verdict: ScanOutcome)
    requires a.download.Some? && verdict.Clean?
    ensures var s := RecordWith(cfg, o, S3Record(bucket, rawKey, size), a, verdict);
      (s.Completed? <==> a.tag != OtherFailure)
      && |s.log| == 5
      && s.log[3].PutTagging? && s.log[3].bucket == bucket && s.log[3].key == o.unquotePlus(rawKey)
      && Lookup(s.log[3].tags, "ScanStatus") == Some("CLEAN")
      && Lookup(s.log[3].tags, "FileHash") == Some(o.sha256Hex(a.download.value))
      && (forall i :: 0 <= i < |s.log| && s.log[i].IsWrite() ==> i == 3)
  {
    var key := o.unquotePlus(rawKey);
    var d := Dispose(cfg, bucket, key, size, o.sha256Hex(a.download.value), verdict, a);
    DownloadedShape(a.tmpPath, bucket, key, d.log);
    CleanTagsLookup(o.sha256Hex(a.download.value), a.taggedAt);
  }

  /** Handling a record never acknowledges the message. */
  lemma RecordNeverDeletes(cfg: Config, o: Oracles, record: RawRecord, a: RecordAnswers,
                           verdict: ScanOutcome)
    ensures var log := RecordWith(cfg, o, record, a, verdict).log;
      forall i :: 0 <= i < |log| ==> !log[i].DeleteMessage?
  {
    match record
    case Malformed =>
    case S3Record(bucket, rawKey, size) =>
      var key := o.unquotePlus(rawKey);
      if a.download.Some? {
        var d := Dispose(cfg, bucket, key, size, o.sha256Hex(a.download.value), verdict, a);
        DownloadedShape(a.tmpPath, bucket, key, d.log);
      }
  }
}
