/** The worker's view of the cloud services it talks to. Every call it makes is
    recorded as an `Action`, in order, and every answer a service gives is an
    input: whether a write was accepted, refused with a `ClientError`, or failed
    with some other exception. */
module Effects {
  import opened Common

  /** The environment settings read at start-up. */
  datatype Config = Config(quarantineBucket: string, topicArn: string, queueUrl: string)

  /** One key/value pair of object metadata or of an object's tag set, in the
      order the worker writes them. */
  datatype Entry = Entry(key: string, value: string)

  /** How a service answered a write. A `ClientError` is caught by the helper
      that made the call; any other exception escapes it. */
  datatype WriteAnswer = Accepted | ClientFailure | OtherFailure

  /** The facts the alert sent for an infected object carries. Its text layout
      is not modelled. */
  datatype Alert = Alert(
    key: string,
    bucket: string,
    virusName: string,
    fileHash: string,
    size: int,
    date: string,
    quarantineBucket: string,
    quarantineKey: Option<string>,
    scanOutput: string)

  /** A call the worker makes outside itself. */
  datatype Action =
    | CreateTemp(path: string)
    | Download(bucket: string, key: string, path: string)
    | Scan(path: string)
    | CopyObject(sourceBucket: string, sourceKey: string, bucket: string, key: string,
                 metadata: seq<Entry>, directive: string, encryption: string)
    | PutTagging(bucket: string, key: string, tags: seq<Entry>)
    | Publish(topic: string, subject: string, alert: Alert)
    | RemoveTemp(path: string)
    | DeleteMessage(queueUrl: string, receipt: string)
  {
    /** The call writes to the object store or sends an alert. */
    predicate IsWrite() {
      CopyObject? || PutTagging? || Publish?
    }
  }

  /** How a helper ends: it returns a value, or an exception escapes it. Either
      way it has made the calls in `log`. */
  datatype Exit<T> = Return(log: seq<Action>, value: T) | Throw(log: seq<Action>)

  /** The value stored under `key`, the first one if there are several. */
  function Lookup(entries: seq<Entry>, key: string): (r: Option<string>)
    ensures r.Some? ==> Entry(key, r.value) in entries
  {
    if entries == [] then None
    else if entries[0].key == key then Some(entries[0].value)
    else Lookup(entries[1..], key)
  }

  lemma LookupSkip(entries: seq<Entry>, key: string)
    requires entries != [] && entries[0].key != key
    ensures Lookup(entries, key) == Lookup(entries[1..], key)
  {
  }
}
