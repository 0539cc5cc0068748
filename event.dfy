/** `process_s3_event` as a whole: the body is parsed, a body without records
    is accepted as is, and the records are handled in order until one of them
    ends the event. Records already handled are not undone when a later one
    fails. */
module Event {
  import opened Common
  import opened Effects
  import opened Worker
  import ClamAV

  /** The function's result and the calls it made. */
  datatype Outcome = Outcome(ok: bool, log: seq<Action>)

  /** One set of answers per record. */
  predicate AnswersFit(body: Body, answers: seq<RecordAnswers>) {
    body.Records? ==> |answers| == |body.records|
  }

  /** How each record would be handled if it were reached. */
  function RecordSteps(cfg: Config, o: Oracles, records: seq<RawRecord>,
                       answers: seq<RecordAnswers>): (steps: seq<Step>)
    requires |answers| == |records|
    ensures |steps| == |records|
    ensures forall k :: 0 <= k < |records| ==> steps[k] == RecordEffects(cfg, o, records[k], answers[k])
  {
    seq(|records|, k requires 0 <= k < |records| => RecordEffects(cfg, o, records[k], answers[k]))
  }

  /** Records are handled in order; the first aborted one ends the event with
      `False`, and `True` comes back once all are completed. */
  function Run(steps: seq<Step>): Outcome {
    if steps == [] then Outcome(true, [])
    else
      match steps[0]
      case Aborted(log) => Outcome(false, log)
      case Completed(log) =>
        var rest := Run(steps[1..]);
        Outcome(rest.ok, log + rest.log)
  }

  /** The result of `process_s3_event` and the calls it makes. */
  function ProcessEvent(cfg: Config, o: Oracles, body: Body, answers: seq<RecordAnswers>): Outcome
    requires AnswersFit(body, answers)
  {
    match body
    case Unparsable => Outcome(false, [])
    case NoRecords => Outcome(true, [])
    case Records(records) => Run(RecordSteps(cfg, o, records, answers))
  }

  /** `process_s3_event`: a body that does not parse fails at once, a body
      without records succeeds at once, and otherwise the records are handled
      by `HandleRecords`. */
  method ProcessS3Event(cfg: Config, o: Oracles, body: Body, answers: seq<RecordAnswers>)
    returns (ok: bool, log: seq<Action>)
    requires AnswersFit(body, answers)
    ensures Outcome(ok, log) == ProcessEvent(cfg, o, body, answers)
    ensures body.Unparsable? ==> !ok && log == []
    ensures body.NoRecords? ==> ok && log == []
  {
    match body
    case Unparsable =>
      return false, [];
    case NoRecords =>
      return true, [];
    case Records(records) =>
      ok, log := HandleRecords(cfg, o, records, answers);
  }

  /** The loop over records: `False` as soon as a record ends the event, `True`
      once every record is done. */
  method HandleRecords(cfg: Config, o: Oracles, records: seq<RawRecord>, answers: seq<RecordAnswers>)
    returns (ok: bool, log: seq<Action>)
    requires |answers| == |records|
    ensures Outcome(ok, log) == Run(RecordSteps(cfg, o, records, answers))
  {
    ghost var steps := RecordSteps(cfg, o, records, answers);
    log := [];
    var i := 0;
    while i < |records|
      invariant 0 <= i <= |records|
      invariant Run(steps) == Outcome(Run(steps[i..]).ok, log + Run(steps[i..]).log)
    {
      var step := ProcessRecord(cfg, o, records[i], answers[i]);
      RunAdvance(Run(steps), steps, i, log);
      log := log + step.log;
      if step.Aborted? {
        return false, log;
      }
      i := i + 1;
    }
    assert steps[i..] == [];
    assert log + [] == log;
    return true, log;
  }

  /** Handling step `i` keeps the loop's account of the run. */
  lemma RunAdvance(whole: Outcome, steps: seq<Step>, i: nat, log: seq<Action>)
    requires i < |steps|
    requires whole == Outcome(Run(steps[i..]).ok, log + Run(steps[i..]).log)
    ensures steps[i].Aborted? ==> whole == Outcome(false, log + steps[i].log)
    ensures steps[i].Completed? ==>
      whole == Outcome(Run(steps[i + 1..]).ok, (log + steps[i].log) + Run(steps[i + 1..]).log)
  {
    RunStep(steps, i);
    var rest := Run(steps[i + 1..]);
    assert log + (steps[i].log + rest.log) == log + steps[i].log + rest.log;
  }

  lemma RunStep(steps: seq<Step>, i: nat)
    requires i < |steps|
    ensures Run(steps[i..]) == if steps[i].Aborted? then Outcome(false, steps[i].log)
                               else Outcome(Run(steps[i + 1..]).ok, steps[i].log + Run(steps[i + 1..]).log)
  {
    assert steps[i..][1..] == steps[i + 1..];
  }

  /** The calls of the steps, one after the other. */
  function Logs(steps: seq<Step>): seq<Action> {
    if steps == [] then [] else steps[0].log + Logs(steps[1..])
  }

  /** When every step before `j` is completed and step `j`, if there is one,
      is aborted, the run ends after step `j` with the calls of steps up to it,
      and succeeds exactly when there is no step `j`. */
  lemma {:induction false} RunEnds(steps: seq<Step>, j: nat)
    requires j <= |steps|
    requires forall k :: 0 <= k < j ==> steps[k].Completed?
    requires j < |steps| ==> steps[j].Aborted?
    ensures Run(steps) == Outcome(j == |steps|, Logs(steps[..if j < |steps| then j + 1 else j]))
  {
    if j == 0 {
      if steps != [] {
        assert steps[..1] == [steps[0]] && [steps[0]][1..] == [];
        assert steps[0].log + [] == steps[0].log;
      }
    } else {
      RunEnds(steps[1..], j - 1);
      var m := if j < |steps| then j + 1 else j;
      assert steps[..m][1..] == steps[1..][..m - 1];
    }
  }

  /** The first aborted step, when there is one. */
  lemma FirstAborted(steps: seq<Step>) returns (j: nat)
    requires exists k :: 0 <= k < |steps| && steps[k].Aborted?
    ensures j < |steps| && steps[j].Aborted?
    ensures forall k :: 0 <= k < j ==> steps[k].Completed?
  {
    j := 0;
    while steps[j].Completed?
      invariant j < |steps|
      invariant forall k :: 0 <= k < j ==> steps[k].Completed?
      invariant exists k :: j <= k < |steps| && steps[k].Aborted?
      decreases |steps| - j
    {
      j := j + 1;
    }
  }

  /** `process_s3_event` returns `True` exactly when every record is
      completed, and then it has made all the records' calls in order. */
  lemma EventSucceedsIffAllComplete(cfg: Config, o: Oracles, records: seq<RawRecord>,
                                    answers: seq<RecordAnswers>)
    requires |answers| == |records|
    ensures var r := ProcessEvent(cfg, o, Records(records), answers);
      var steps := RecordSteps(cfg, o, records, answers);
      (r.ok <==> forall k :: 0 <= k < |records| ==> RecordEffects(cfg, o, records[k], answers[k]).Completed?)
      && (r.ok ==> r.log == Logs(steps))
  {
    var steps := RecordSteps(cfg, o, records, answers);
    if forall k :: 0 <= k < |steps| ==> steps[k].Completed? {
      RunEnds(steps, |steps|);
      assert steps[..|steps|] == steps;
    } else {
      var j := FirstAborted(steps);
      RunEnds(steps, j);
    }
  }

  /** The first record that ends the event is the last one handled: the event
      returns `False` with the calls of the records up to it, whatever the
      records after it are, and the earlier records' writes stand. */
  lemma AbortStopsEvent(cfg: Config, o: Oracles, records: seq<RawRecord>,
                        answers: seq<RecordAnswers>, j: nat)
    requires |answers| == |records| && j < |records|
    requires forall k :: 0 <= k < j ==> RecordEffects(cfg, o, records[k], answers[k]).Completed?
    requires RecordEffects(cfg, o, records[j], answers[j]).Aborted?
    ensures ProcessEvent(cfg, o, Records(records), answers)
            == Outcome(false, Logs(RecordSteps(cfg, o, records, answers)[..j + 1]))
    ensures ProcessEvent(cfg, o, Records(records), answers)
            == ProcessEvent(cfg, o, Records(records[..j + 1]), answers[..j + 1])
  {
    var steps := RecordSteps(cfg, o, records, answers);
    RunEnds(steps, j);
    var prefix := RecordSteps(cfg, o, records[..j + 1], answers[..j + 1]);
    assert prefix == steps[..j + 1];
    RunEnds(prefix, j);
    assert prefix[..j + 1] == prefix;
  }

  /** Every call of the run is a call of one of its steps. */
  lemma {:induction false} RunFromSteps(steps: seq<Step>, x: Action)
    requires x in Run(steps).log
    ensures exists k :: 0 <= k < |steps| && x in steps[k].log
  {
    if steps != [] && steps[0].Completed? && x !in steps[0].log {
      RunFromSteps(steps[1..], x);
      var k :| 0 <= k < |steps| - 1 && x in steps[1..][k].log;
      assert steps[k + 1] == steps[1..][k];
    }
  }

  /** `process_s3_event` never deletes the message itself; that is left to
      its caller. */
  lemma EventNeverDeletes(cfg: Config, o: Oracles, body: Body, answers: seq<RecordAnswers>)
    requires AnswersFit(body, answers)
    ensures var log := ProcessEvent(cfg, o, body, answers).log;
      forall i :: 0 <= i < |log| ==> !log[i].DeleteMessage?
  {
    if body.Records? {
      var steps := RecordSteps(cfg, o, body.records, answers);
      var log := Run(steps).log;
      forall i | 0 <= i < |log|
        ensures !log[i].DeleteMessage?
      {
        RunFromSteps(steps, log[i]);
        var k :| 0 <= k < |steps| && log[i] in steps[k].log;
        RecordNeverDeletes(cfg, o, body.records[k], answers[k],
                           ClamAV.Classify(answers[k].scan));
      }
    }
  }

  lemma {:induction false} LogsAppend(steps: seq<Step>, s: Step)
    ensures Logs(steps + [s]) == Logs(steps) + s.log
  {
    if steps == [] {
      assert [s][1..] == [];
      assert s.log + [] == s.log;
    } else {
      assert (steps + [s])[1..] == steps[1..] + [s];
      LogsAppend(steps[1..], s);
    }
  }

  /** A step aborted before any call ends the run with the calls of the
      steps before it. */
  lemma RunEndsSilently(steps: seq<Step>, j: nat)
    requires j < |steps| && steps[j] == Aborted([])
    requires forall k :: 0 <= k < j ==> steps[k].Completed?
    ensures Run(steps) == Outcome(false, Logs(steps[..j]))
  {
    RunEnds(steps, j);
    assert steps[..j + 1] == steps[..j] + [steps[j]];
    LogsAppend(steps[..j], steps[j]);
    assert Logs(steps[..j]) + [] == Logs(steps[..j]);
  }

  /** A record missing one of the fields the worker reads ends the event with
      `False` before any call is made for it. */
  lemma MalformedRecordEndsEvent(cfg: Config, o: Oracles, records: seq<RawRecord>,
                                 answers: seq<RecordAnswers>, j: nat)
    requires |answers| == |records| && j < |records| && records[j].Malformed?
    requires forall k :: 0 <= k < j ==> RecordEffects(cfg, o, records[k], answers[k]).Completed?
    ensures ProcessEvent(cfg, o, Records(records), answers)
            == Outcome(false, Logs(RecordSteps(cfg, o, records, answers)[..j]))
  {
    var steps := RecordSteps(cfg, o, records, answers);
    RunEndsSilently(steps, j);
  }
}
