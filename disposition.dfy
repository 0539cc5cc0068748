/** What the worker writes once a verdict is in: `move_to_quarantine` for an
    infected object, `tag_file_as_clean` for a clean one, and
    `send_sns_notification` for the alert. Each helper catches a `ClientError`
    and reports it through its return value; any other exception escapes. */
module Disposition {
  import opened Common
  import opened Calendar
  import opened Effects

  /** `virus_name or 'Unknown'`: an empty name is replaced too. */
  function OrUnknown(name: string): (r: string)
    ensures r != []
    ensures name != [] ==> r == name
    ensures name == [] ==> r == "Unknown"
  {
    if name == [] then "Unknown" else name
  }

  /** Where an infected object is filed: `infected/YYYY/MM/DD/<hash>_<key>`. */
  function QuarantineKey(today: Date, fileHash: string, key: string): string
    requires Valid(today)
  {
    "infected/" + DatePartition(today) + "/" + fileHash + "_" + key
  }

  /** The quarantine key is read back field by field: the date from its
      partition, then the hash and the original key around the underscore that
      follows the hash. */
  lemma QuarantineKeyLayout(today: Date, fileHash: string, key: string)
    requires Valid(today)
    ensures var k := QuarantineKey(today, fileHash, key);
      |k| == 21 + |fileHash| + |key| && k[..9] == "infected/" && k[19] == '/'
      && ParseDatePartition(k[9..19]) == Some(today)
      && k[20..20 + |fileHash|] == fileHash && k[20 + |fileHash|] == '_'
      && k[21 + |fileHash|..] == key
  {
    var k := QuarantineKey(today, fileHash, key);
    assert k[9..19] == DatePartition(today);
    PartitionRoundTrip(today);
  }

  /** Hashes of one length (a SHA-256 hex digest always has 64 characters)
      keep quarantine keys of different objects, days or contents apart. */
  lemma QuarantineKeyInjective(d1: Date, h1: string, k1: string, d2: Date, h2: string, k2: string)
    requires Valid(d1) && Valid(d2) && |h1| == |h2|
    requires QuarantineKey(d1, h1, k1) == QuarantineKey(d2, h2, k2)
    ensures d1 == d2 && h1 == h2 && k1 == k2
  {
    QuarantineKeyLayout(d1, h1, k1);
    QuarantineKeyLayout(d2, h2, k2);
  }

  /** The metadata the quarantined copy carries, replacing the original's. */
  function QuarantineMetadata(virusName: string, bucket: string, key: string,
                              copiedAt: string, fileHash: string): seq<Entry>
  {
    [Entry("virus-name", OrUnknown(virusName)),
     Entry("original-bucket", bucket),
     Entry("original-key", key),
     Entry("quarantine-date", copiedAt),
     Entry("file-hash", fileHash)]
  }

  /** The tag set marking the original as infected. */
  function InfectedTags(virusName: string, taggedAt: string): seq<Entry> {
    [Entry("ScanStatus", "INFECTED"),
     Entry("VirusName", OrUnknown(virusName)),
     Entry("ScanDate", taggedAt)]
  }

  lemma MetadataLookup(virusName: string, bucket: string, key: string,
                        copiedAt: string, fileHash: string)
    ensures var m := QuarantineMetadata(virusName, bucket, key, copiedAt, fileHash);
      Lookup(m, "virus-name") == Some(OrUnknown(virusName))
      && Lookup(m, "original-bucket") == Some(bucket)
      && Lookup(m, "original-key") == Some(key)
      && Lookup(m, "quarantine-date") == Some(copiedAt)
      && Lookup(m, "file-hash") == Some(fileHash)
  {
    var m := QuarantineMetadata(virusName, bucket, key, copiedAt, fileHash);
    var m1, m2, m3, m4 := m[1..], m[2..], m[3..], m[4..];
    assert m1[1..] == m2 && m2[1..] == m3 && m3[1..] == m4;
    assert Lookup(m, "original-bucket") == Some(bucket) by {
      LookupSkip(m, "original-bucket");
    }
    assert Lookup(m, "original-key") == Some(key) by {
      LookupSkip(m, "original-key");
      assert "original-bucket"[9] != "original-key"[9];
      LookupSkip(m1, "original-key");
    }
    assert Lookup(m, "quarantine-date") == Some(copiedAt) by {
      LookupSkip(m, "quarantine-date");
      assert "original-bucket"[0] != "quarantine-date"[0];
      LookupSkip(m1, "quarantine-date");
      LookupSkip(m2, "quarantine-date");
    }
    assert Lookup(m, "file-hash") == Some(fileHash) by {
      LookupSkip(m, "file-hash");
      LookupSkip(m1, "file-hash");
      LookupSkip(m2, "file-hash");
      LookupSkip(m3, "file-hash");
    }
  }

  lemma InfectedTagsLookup(virusName: string, taggedAt: string)
    ensures var t := InfectedTags(virusName, taggedAt);
      Lookup(t, "ScanStatus") == Some("INFECTED")
      && Lookup(t, "VirusName") == Some(OrUnknown(virusName))
      && Lookup(t, "ScanDate") == Some(taggedAt)
  {
    var t := InfectedTags(virusName, taggedAt);
    assert t[1..] == [t[1], t[2]];
    assert t[1..][1..] == [t[2]];
    assert Lookup(t[1..], "ScanDate") == Lookup([t[2]], "ScanDate");
  }

  /** The tag set marking an object as clean. */
  function CleanTags(fileHash: string, taggedAt: string): seq<Entry> {
    [Entry("ScanStatus", "CLEAN"),
     Entry("ScanDate", taggedAt),
     Entry("FileHash", fileHash)]
  }

  /** `move_to_quarantine`: copy the object into the quarantine bucket under
      its quarantine key, then tag the original. The key is returned only when
      both writes were accepted; a `ClientError` from either gives `None`, and
      a failed copy is never followed by the tagging. `today` is the date the
      key is filed under; `copiedAt` and `taggedAt` are the `isoformat()`
      timestamps of the two writes. */
  function MoveToQuarantine(cfg: Config, bucket: string, key: string, virusName: string,
                            fileHash: string, today: Date, copiedAt: string, taggedAt: string,
                            copy: WriteAnswer, tag: WriteAnswer): (r: Exit<Option<string>>)
    requires Valid(today)
    ensures r.Return? && r.value.Some? <==> copy == Accepted && tag == Accepted
    ensures r.Throw? <==> copy == OtherFailure || (copy == Accepted && tag == OtherFailure)
    ensures r.Return? && r.value.Some? ==> r.value.value == QuarantineKey(today, fileHash, key)
    ensures |r.log| == (if copy == Accepted then 2 else 1)
  {
    var quarantineKey := QuarantineKey(today, fileHash, key);
    var copyCall := CopyObject(bucket, key, cfg.quarantineBucket, quarantineKey,
                               QuarantineMetadata(virusName, bucket, key, copiedAt, fileHash),
                               "REPLACE", "AES256");
    match copy
    case OtherFailure => Throw([copyCall])
    case ClientFailure => Return([copyCall], None)
    case Accepted =>
      var tagCall := PutTagging(bucket, key, InfectedTags(virusName, taggedAt));
      match tag
      case OtherFailure => Throw([copyCall, tagCall])
      case ClientFailure => Return([copyCall, tagCall], None)
      case Accepted => Return([copyCall, tagCall], Some(quarantineKey))
  }

  /** The first call is the copy: from the original, into the quarantine
      bucket under the quarantine key, with its metadata replaced and
      encrypted with AES-256. The metadata names the original's bucket, key
      and hash, the copy's timestamp, and a virus name that is never empty. */
  lemma QuarantineCopyFirst(cfg: Config, bucket: string, key: string, virusName: string,
                            fileHash: string, today: Date, copiedAt: string, taggedAt: string,
                            copy: WriteAnswer, tag: WriteAnswer)
    requires Valid(today)
    ensures var log := MoveToQuarantine(cfg, bucket, key, virusName, fileHash, today,
                                        copiedAt, taggedAt, copy, tag).log;
      log[0].CopyObject?
      && log[0].sourceBucket == bucket && log[0].sourceKey == key
      && log[0].bucket == cfg.quarantineBucket
      && log[0].key == QuarantineKey(today, fileHash, key)
      && log[0].directive == "REPLACE" && log[0].encryption == "AES256"
      && Lookup(log[0].metadata, "virus-name") == Some(OrUnknown(virusName))
      && Lookup(log[0].metadata, "original-bucket") == Some(bucket)
      && Lookup(log[0].metadata, "original-key") == Some(key)
      && Lookup(log[0].metadata, "quarantine-date") == Some(copiedAt)
      && Lookup(log[0].metadata, "file-hash") == Some(fileHash)
  {
    MetadataLookup(virusName, bucket, key, copiedAt, fileHash);
  }

  /** The original is tagged only after the copy was accepted, and then as
      INFECTED with the (never empty) virus name and the tagging timestamp. */
  lemma QuarantineTagsAfterCopy(cfg: Config, bucket: string, key: string, virusName: string,
                                fileHash: string, today: Date, copiedAt: string, taggedAt: string,
                                copy: WriteAnswer, tag: WriteAnswer)
    requires Valid(today)
    ensures var log := MoveToQuarantine(cfg, bucket, key, virusName, fileHash, today,
                                        copiedAt, taggedAt, copy, tag).log;
      (exists i :: 0 <= i < |log| && log[i].PutTagging?) <==> copy == Accepted
    ensures var log := MoveToQuarantine(cfg, bucket, key, virusName, fileHash, today,
                                        copiedAt, taggedAt, copy, tag).log;
      copy == Accepted ==>
        log[1].PutTagging? && log[1].bucket == bucket && log[1].key == key
        && Lookup(log[1].tags, "ScanStatus") == Some("INFECTED")
        && Lookup(log[1].tags, "VirusName") == Some(OrUnknown(virusName))
        && Lookup(log[1].tags, "ScanDate") == Some(taggedAt)
  {
    var log := MoveToQuarantine(cfg, bucket, key, virusName, fileHash, today,
                                copiedAt, taggedAt, copy, tag).log;
    if copy == Accepted {
      assert log[1].PutTagging?;
      InfectedTagsLookup(virusName, taggedAt);
    }
  }

  lemma CleanTagsLookup(fileHash: string, taggedAt: string)
    ensures var t := CleanTags(fileHash, taggedAt);
      Lookup(t, "ScanStatus") == Some("CLEAN")
      && Lookup(t, "ScanDate") == Some(taggedAt)
      && Lookup(t, "FileHash") == Some(fileHash)
  {
    var t := CleanTags(fileHash, taggedAt);
    assert t[1..] == [t[1], t[2]];
    assert t[1..][1..] == [t[2]];
    assert "ScanStatus"[4] != "ScanDate"[4];
    assert Lookup(t[1..], "FileHash") == Lookup([t[2]], "FileHash");
  }

  /** `tag_file_as_clean`: one tagging call on the object, marking it CLEAN with
      the timestamp and the content hash. It reports whether the tagging was
      accepted; a failure other than a `ClientError` escapes. */
  function TagFileAsClean(bucket: string, key: string, fileHash: string, taggedAt: string,
                          answer: WriteAnswer): (r: Exit<bool>)
    ensures r.Throw? <==> answer == OtherFailure
    ensures r.Return? ==> (r.value <==> answer == Accepted)
    ensures |r.log| == 1 && r.log[0].PutTagging? && r.log[0].bucket == bucket && r.log[0].key == key
    ensures r.log[0].tags == CleanTags(fileHash, taggedAt)
  {
    var call := PutTagging(bucket, key, CleanTags(fileHash, taggedAt));
    match answer
    case OtherFailure => Throw([call])
    case ClientFailure => Return([call], false)
    case Accepted => Return([call], true)
  }

  /** The alert's subject line: a siren emoji, the words MALWARE DETECTADO and
      the virus name as scanned (not replaced when empty). */
  function AlertSubject(virusName: string): (s: string)
    ensures |s| == 22 + |virusName| && s[22..] == virusName
  {
    "\U{1F6A8} MALWARE DETECTADO - " + virusName
  }

  /** `send_sns_notification`: one publish to the configured topic. */
  function SendSnsNotification(cfg: Config, subject: string, alert: Alert,
                               answer: WriteAnswer): (r: Exit<bool>)
    ensures r.Throw? <==> answer == OtherFailure
    ensures r.Return? ==> (r.value <==> answer == Accepted)
    ensures r.log == [Publish(cfg.topicArn, subject, alert)]
  {
    var call := Publish(cfg.topicArn, subject, alert);
    match answer
    case OtherFailure => Throw([call])
    case ClientFailure => Return([call], false)
    case Accepted => Return([call], true)
  }
}
