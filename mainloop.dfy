/** One turn of the worker's polling loop: the messages of a receive are
    handled in order; a message whose event was processed successfully is
    deleted from the queue, any other is left for redelivery. An exception
    while a message is handled (a missing receipt handle, a failed delete) ends
    the turn; the loop then polls again. */
module MainLoop {
  import opened Common
  import opened Effects
  import opened Worker
  import opened Event

  /** A received queue message: its receipt handle, when it has one, and its
      body. */
  datatype Message = Message(receipt: Option<string>, body: Body)

  /** The environment's answers while one message is handled: those for each
      of its records and how the delete was answered. Every failure of the
      delete raises, a `ClientError` included. */
  datatype MessageAnswers = MessageAnswers(records: seq<RecordAnswers>, delete: WriteAnswer)

  /** What one receive returned. */
  datatype Received =
    | ReceiveFailed              // the receive raised
    | NoMessages                 // a response without `Messages`
    | Messages(messages: seq<Message>)

  predicate Fits(m: Message, ans: MessageAnswers) {
    AnswersFit(m.body, ans.records)
  }

  predicate AllFit(messages: seq<Message>, answers: seq<MessageAnswers>) {
    |answers| == |messages| && forall j :: 0 <= j < |messages| ==> Fits(messages[j], answers[j])
  }

  /** One message: read the receipt handle, process the event, and delete the
      message when processing returned `True`. Returns `True` when the message
      was deleted and `False` when it is left for redelivery; an exception
      escapes when the handle is missing or the delete fails. */
  function HandleMessage(cfg: Config, o: Oracles, m: Message, ans: MessageAnswers): Exit<bool>
    requires Fits(m, ans)
  {
    match m.receipt
    case None => Throw([])
    case Some(receipt) =>
      var r := ProcessEvent(cfg, o, m.body, ans.records);
      if !r.ok then Return(r.log, false)
      else
        var log := r.log + [DeleteMessage(cfg.queueUrl, receipt)];
        if ans.delete == Accepted then Return(log, true) else Throw(log)
  }

  /** The body of the `for` loop over a response's messages. */
  method HandleMessageStep(cfg: Config, o: Oracles, m: Message, ans: MessageAnswers)
    returns (e: Exit<bool>)
    requires Fits(m, ans)
    ensures e == HandleMessage(cfg, o, m, ans)
  {
    if m.receipt.None? {
      return Throw([]);
    }
    var receipt := m.receipt.value;
    var success, log := ProcessS3Event(cfg, o, m.body, ans.records);
    if !success {
      return Return(log, false);
    }
    log := log + [DeleteMessage(cfg.queueUrl, receipt)];
    if ans.delete == Accepted {
      e := Return(log, true);
    } else {
      e := Throw(log);
    }
  }

  /** How each message would be handled if it were reached. */
  function MessageExits(cfg: Config, o: Oracles, messages: seq<Message>,
                        answers: seq<MessageAnswers>): (exits: seq<Exit<bool>>)
    requires AllFit(messages, answers)
    ensures |exits| == |messages|
    ensures forall j :: 0 <= j < |messages| ==> exits[j] == HandleMessage(cfg, o, messages[j], answers[j])
  {
    seq(|messages|, j requires 0 <= j < |messages| => HandleMessage(cfg, o, messages[j], answers[j]))
  }

  /** Messages are handled in order until one raises. */
  function Drain(exits: seq<Exit<bool>>): seq<Action> {
    if exits == [] then []
    else if exits[0].Throw? then exits[0].log
    else exits[0].log + Drain(exits[1..])
  }

  /** The calls made in one turn of the loop. */
  function TurnEffects(cfg: Config, o: Oracles, received: Received, answers: seq<MessageAnswers>)
    : seq<Action>
    requires received.Messages? ==> AllFit(received.messages, answers)
  {
    match received
    case ReceiveFailed => []
    case NoMessages => []
    case Messages(messages) => Drain(MessageExits(cfg, o, messages, answers))
  }

  lemma DrainStep(exits: seq<Exit<bool>>, j: nat)
    requires j < |exits|
    ensures Drain(exits[j..]) == if exits[j].Throw? then exits[j].log
                                 else exits[j].log + Drain(exits[j + 1..])
  {
    assert exits[j..][1..] == exits[j + 1..];
  }

  /** Handling message `j` keeps the loop's account of the turn. */
  lemma DrainAdvance(whole: seq<Action>, exits: seq<Exit<bool>>, j: nat, log: seq<Action>)
    requires j < |exits|
    requires whole == log + Drain(exits[j..])
    ensures exits[j].Throw? ==> whole == log + exits[j].log
    ensures exits[j].Return? ==> whole == (log + exits[j].log) + Drain(exits[j + 1..])
  {
    DrainStep(exits, j);
    assert log + (exits[j].log + Drain(exits[j + 1..])) == log + exits[j].log + Drain(exits[j + 1..]);
  }

  /** One turn of `while True`: receive, then handle the messages in order;
      an exception leaves the rest of the response unhandled. */
  method PollOnce(cfg: Config, o: Oracles, received: Received, answers: seq<MessageAnswers>)
    returns (log: seq<Action>)
    requires received.Messages? ==> AllFit(received.messages, answers)
    ensures log == TurnEffects(cfg, o, received, answers)
  {
    if !received.Messages? {
      return [];
    }
    var messages := received.messages;
    ghost var exits := MessageExits(cfg, o, messages, answers);
    log := [];
    var j := 0;
    while j < |messages|
      invariant 0 <= j <= |messages|
      invariant Drain(exits) == log + Drain(exits[j..])
    {
      var e := HandleMessageStep(cfg, o, messages[j], answers[j]);
      DrainAdvance(Drain(exits), exits, j, log);
      log := log + e.log;
      if e.Throw? {
        return log;
      }
      j := j + 1;
    }
    assert exits[j..] == [];
    assert log + [] == log;
  }

  /** The ack rule: a message is deleted exactly when it has a receipt handle
      and its event was processed with `True`; the delete is then the last
      call made for it and the only one, and it names the queue and the
      handle. A message whose processing returned `False` is left in the queue
      and the loop goes on. */
  lemma DeleteIffProcessed(cfg: Config, o: Oracles, m: Message, ans: MessageAnswers)
    requires Fits(m, ans)
    ensures var h := HandleMessage(cfg, o, m, ans);
      var r := ProcessEvent(cfg, o, m.body, ans.records);
      ((exists i :: 0 <= i < |h.log| && h.log[i].DeleteMessage?) <==> m.receipt.Some? && r.ok)
      && (m.receipt.Some? && r.ok ==>
            h.log == r.log + [DeleteMessage(cfg.queueUrl, m.receipt.value)]
            && forall i :: 0 <= i < |h.log| && h.log[i].DeleteMessage? ==> i == |h.log| - 1)
      && (m.receipt.Some? && !r.ok ==> h == Return(r.log, false))
      && (m.receipt.None? ==> h == Throw([]))
      && (h.Return? && h.value <==> m.receipt.Some? && r.ok && ans.delete == Accepted)
  {
    EventNeverDeletes(cfg, o, m.body, ans.records);
    var h := HandleMessage(cfg, o, m, ans);
    if m.receipt.Some? && ProcessEvent(cfg, o, m.body, ans.records).ok {
      assert h.log[|h.log| - 1].DeleteMessage?;
    }
  }

  /** Every call of a turn is a call made for one of its messages. */
  lemma {:induction false} DrainFromExits(exits: seq<Exit<bool>>, x: Action)
    requires x in Drain(exits)
    ensures exists j :: 0 <= j < |exits| && x in exits[j].log
  {
    if exits != [] && exits[0].Return? && x !in exits[0].log {
      DrainFromExits(exits[1..], x);
      var j :| 0 <= j < |exits| - 1 && x in exits[1..][j].log;
      assert exits[j + 1] == exits[1..][j];
    }
  }

  /** Over a whole turn, every delete names the queue and the receipt handle
      of a message of the response whose event was processed with `True`. */
  lemma TurnDeletesOnlyProcessed(cfg: Config, o: Oracles, messages: seq<Message>,
                                 answers: seq<MessageAnswers>)
    requires AllFit(messages, answers)
    ensures var log := TurnEffects(cfg, o, Messages(messages), answers);
      forall i :: 0 <= i < |log| && log[i].DeleteMessage? ==>
        log[i].queueUrl == cfg.queueUrl
        && exists j :: 0 <= j < |messages| && messages[j].receipt == Some(log[i].receipt)
                       && ProcessEvent(cfg, o, messages[j].body, answers[j].records).ok
  {
    var exits := MessageExits(cfg, o, messages, answers);
    var log := Drain(exits);
    forall i | 0 <= i < |log| && log[i].DeleteMessage?
      ensures log[i].queueUrl == cfg.queueUrl
      ensures exists j :: 0 <= j < |messages| && messages[j].receipt == Some(log[i].receipt)
                          && ProcessEvent(cfg, o, messages[j].body, answers[j].records).ok
    {
      DrainFromExits(exits, log[i]);
      var j :| 0 <= j < |exits| && log[i] in exits[j].log;
      DeleteIffProcessed(cfg, o, messages[j], answers[j]);
      var h := exits[j];
      var k :| 0 <= k < |h.log| && h.log[k] == log[i];
      assert k == |h.log| - 1;
    }
  }
}
