/**
 The batch-append client: calls put a request and a one-shot sender on a channel, and
 one dispatcher task routes the replies back by correlation id.  Whatever arrives,
 each call is answered at most once, with its own reply or an error, and no call is
 left behind when the dispatcher stops.
 */
module Batch {
  type CorrelationId = nat

  /** The receiving end a caller waits on. */
  type Call = nat

  datatype Reply = Written(streamName: string, revision: nat) | Refused(code: nat)

  datatype Answer =
    | Replied(reply: Reply)
    | SessionError(code: nat)
    | Closed

  datatype BatchMsg =
    | In(correlationId: CorrelationId, sender: Call)
    | Out(replyId: CorrelationId, reply: Reply)
    | Error(code: nat)

  /** A call waiting in the dispatcher's registry. */
  type Registry = map<CorrelationId, Call>

  /** The state of the channel, the dispatcher and the callers. */
  datatype Session = Session(
    queue: seq<BatchMsg>,
    reg: Registry,
    open: bool,
    calls: map<Call, CorrelationId>,
    answers: map<Call, Answer>)

  const START := Session([], map[], true, map[], map[])

  /** Senders of the requests still queued. */
  function Queued(queue: seq<BatchMsg>): set<Call> {
    set m | m in queue && m.In? :: m.sender
  }

  function Pending(reg: Registry): set<Call> {
    reg.Values
  }

  /** The same answer for every call of a set. */
  function AnswerAll(calls: set<Call>, answer: Answer): map<Call, Answer> {
    map call | call in calls :: answer
  }

  /** The dispatcher is gone: its registry and its queue are dropped, and every sender in them with it. */
  function Stopped(s: Session): Session {
    s.(queue := [], reg := map[], open := false,
       answers := s.answers + AnswerAll(Pending(s.reg) + Queued(s.queue), Closed))
  }

  /** A caller submits; if the dispatcher is gone its send fails at once. */
  function Submit(s: Session, call: Call, correlationId: CorrelationId): Session {
    var known := s.(calls := s.calls[call := correlationId]);
    if s.open then known.(queue := s.queue + [In(correlationId, call)])
    else known.(answers := s.answers[call := Closed])
  }

  /** The session's reader task puts a reply, or its final error, on the channel. */
  function Arrive(s: Session, msg: BatchMsg): Session {
    if s.open then s.(queue := s.queue + [msg]) else s
  }

  /** The dispatcher takes one message; `forwarded` says whether the request could be passed on. */
  function Dispatch(s: Session, forwarded: bool): Session {
    if !s.open || s.queue == [] then s
    else
      var rest := s.(queue := s.queue[1..]);
      match s.queue[0]
      case In(correlationId, sender) =>
        if forwarded then
          var displaced := if correlationId in s.reg then {s.reg[correlationId]} else {};
          rest.(reg := s.reg[correlationId := sender],
                answers := s.answers + AnswerAll(displaced, Closed))
        else Stopped(rest.(answers := s.answers[sender := Closed]))
      case Out(replyId, reply) =>
        if replyId !in s.reg then rest
        else
          var answered := rest.(reg := s.reg - {replyId}, answers := s.answers[s.reg[replyId] := Replied(reply)]);
          if reply.Refused? then Stopped(answered) else answered
      case Error(code) =>
        Stopped(rest.(reg := map[], answers := s.answers + AnswerAll(Pending(s.reg), SessionError(code))))
  }

  datatype Step =
    | Submitted(call: Call, correlationId: CorrelationId)
    | Arrived(reply: BatchMsg)
    | Dispatched(forwarded: bool)

  function Next(s: Session, step: Step): Session {
    match step
    case Submitted(call, correlationId) => Submit(s, call, correlationId)
    case Arrived(reply) => Arrive(s, reply)
    case Dispatched(forwarded) => Dispatch(s, forwarded)
  }

  function Run(steps: seq<Step>): Session {
    if steps == [] then START else Next(Run(steps[..|steps| - 1]), steps[|steps| - 1])
  }

  /** Correlation ids are fresh v4 ids, each call has its own receiver, and only callers submit requests. */
  predicate Admissible(s: Session, step: Step) {
    match step
    case Submitted(call, correlationId) =>
      call !in s.calls && forall other | other in s.calls :: s.calls[other] != correlationId
    case Arrived(reply) => !reply.In?
    case Dispatched(_) => true
  }

  predicate AdmissibleRun(steps: seq<Step>) {
    steps != [] ==>
      && AdmissibleRun(steps[..|steps| - 1])
      && Admissible(Run(steps[..|steps| - 1]), steps[|steps| - 1])
  }

  // ---------------------------------------------------------------- the invariant

  ghost predicate DistinctCorrelation(s: Session) {
    forall a, b | a in s.calls && b in s.calls && s.calls[a] == s.calls[b] :: a == b
  }

  ghost predicate QueueOk(s: Session) {
    && (forall i | 0 <= i < |s.queue| && s.queue[i].In? ::
          && s.queue[i].sender in s.calls && s.calls[s.queue[i].sender] == s.queue[i].correlationId
          && s.queue[i].sender !in s.answers
          && s.queue[i].correlationId !in s.reg)
    && (forall i, j | 0 <= i < j < |s.queue| && s.queue[i].In? && s.queue[j].In? ::
          s.queue[i].sender != s.queue[j].sender)
  }

  ghost predicate RegistryOk(s: Session) {
    forall id | id in s.reg ::
      s.reg[id] in s.calls && s.calls[s.reg[id]] == id && s.reg[id] !in s.answers
  }

  /** Every submitted call is in exactly one place: answered, registered or queued. */
  ghost predicate Accounted(s: Session) {
    && (forall call | call in s.answers :: call in s.calls)
    && (forall call | call in s.calls :: call in s.answers || call in Pending(s.reg) || call in Queued(s.queue))
    && (!s.open ==> s.queue == [] && s.reg == map[])
  }

  ghost predicate Inv(s: Session) {
    DistinctCorrelation(s) && QueueOk(s) && RegistryOk(s) && Accounted(s)
  }

  lemma SubmitKeeps(s: Session, call: Call, correlationId: CorrelationId)
    requires Inv(s) && Admissible(s, Submitted(call, correlationId))
    ensures Inv(Submit(s, call, correlationId))
  {
    var t := Submit(s, call, correlationId);
    if s.open {
      assert t.queue[|s.queue|] == In(correlationId, call);
      assert Queued(t.queue) == Queued(s.queue) + {call};
    }
  }

  lemma ArriveKeeps(s: Session, msg: BatchMsg)
    requires Inv(s) && !msg.In?
    ensures Inv(Arrive(s, msg))
  {
    if s.open {
      assert Queued(s.queue + [msg]) == Queued(s.queue);
    }
  }

  lemma TakenHead(queue: seq<BatchMsg>)
    requires queue != []
    ensures Queued(queue) == Queued(queue[1..]) + if queue[0].In? then {queue[0].sender} else {}
  {
    assert queue == [queue[0]] + queue[1..];
  }

  /** Stopping answers everyone who was still waiting. */
  lemma StoppedKeeps(s: Session)
    requires DistinctCorrelation(s)
    requires forall call | call in s.answers :: call in s.calls
    requires forall call | call in Pending(s.reg) + Queued(s.queue) :: call in s.calls
    requires forall call | call in s.calls :: call in s.answers || call in Pending(s.reg) || call in Queued(s.queue)
    ensures Inv(Stopped(s))
    ensures forall call | call in s.calls :: call in Stopped(s).answers
  {
  }

  lemma DispatchKeeps(s: Session, forwarded: bool)
    requires Inv(s)
    ensures Inv(Dispatch(s, forwarded))
  {
    if s.open && s.queue != [] {
      TakenHead(s.queue);
      var rest := s.(queue := s.queue[1..]);
      match s.queue[0] {
        case In(correlationId, sender) =>
          if forwarded { RegisterKeeps(s, correlationId, sender); }
          else { StoppedKeeps(rest.(answers := s.answers[sender := Closed])); }
        case Out(replyId, reply) =>
          if replyId in s.reg { AnswerKeeps(s, replyId, reply); }
        case Error(code) =>
          StoppedKeeps(rest.(reg := map[], answers := s.answers + AnswerAll(Pending(s.reg), SessionError(code))));
      }
    }
  }

  lemma PendingWith(reg: Registry, id: CorrelationId, call: Call)
    requires id !in reg
    ensures Pending(reg[id := call]) == Pending(reg) + {call}
  {
    var after := reg[id := call];
    assert after[id] == call;
    forall other | other in Pending(reg)
      ensures other in Pending(after)
    {
      var k :| k in reg && reg[k] == other;
      assert after[k] == other;
    }
  }

  lemma PendingWithout(reg: Registry, id: CorrelationId)
    requires id in reg
    ensures Pending(reg) == Pending(reg - {id}) + {reg[id]}
  {
    forall other | other in Pending(reg) && other != reg[id]
      ensures other in Pending(reg - {id})
    {
      var k :| k in reg && reg[k] == other;
      assert (reg - {id})[k] == other;
    }
  }

  lemma RegisterKeeps(s: Session, correlationId: CorrelationId, sender: Call)
    requires Inv(s) && s.open && s.queue != [] && s.queue[0] == In(correlationId, sender)
    ensures Inv(Dispatch(s, true))
  {
    TakenHead(s.queue);
    var t := Dispatch(s, true);
    assert t.answers == s.answers;
    PendingWith(s.reg, correlationId, sender);
    assert forall i | 0 <= i < |t.queue| :: t.queue[i] == s.queue[i + 1];
  }

  lemma AnswerKeeps(s: Session, replyId: CorrelationId, reply: Reply)
    requires Inv(s) && s.open && s.queue != [] && s.queue[0] == Out(replyId, reply) && replyId in s.reg
    ensures Inv(Dispatch(s, true)) && Dispatch(s, false) == Dispatch(s, true)
  {
    TakenHead(s.queue);
    var call := s.reg[replyId];
    var t := s.(queue := s.queue[1..], reg := s.reg - {replyId}, answers := s.answers[call := Replied(reply)]);
    PendingWithout(s.reg, replyId);
    assert forall i | 0 <= i < |t.queue| :: t.queue[i] == s.queue[i + 1];
    if reply.Refused? { StoppedKeeps(t); }
  }

  lemma {:induction false} RunKeeps(steps: seq<Step>)
    requires AdmissibleRun(steps)
    ensures Inv(Run(steps))
  {
    if steps != [] {
      var before, last := steps[..|steps| - 1], steps[|steps| - 1];
      RunKeeps(before);
      match last {
        case Submitted(call, correlationId) => SubmitKeeps(Run(before), call, correlationId);
        case Arrived(reply) => ArriveKeeps(Run(before), reply);
        case Dispatched(forwarded) => DispatchKeeps(Run(before), forwarded);
      }
    }
  }

  // ---------------------------------------------------------------- what a caller can rely on

  lemma StoppedAnswers(s: Session, call: Call)
    ensures call in Pending(s.reg) + Queued(s.queue) ==>
      call in Stopped(s).answers && Stopped(s).answers[call] == Closed
    ensures call !in Pending(s.reg) + Queued(s.queue) ==>
      && (call in Stopped(s).answers <==> call in s.answers)
      && (call in s.answers ==> Stopped(s).answers[call] == s.answers[call])
  {
  }

  /**
   What a turn does with its message: a request is registered for its caller, or, when it
   cannot be forwarded, told that the session closed; a response answers the call
   registered under its id; an error answers all of them.
   */
  ghost predicate Handles(s: Session, t: Session, forwarded: bool)
    requires s.queue != []
  {
    match s.queue[0]
    case In(correlationId, sender) =>
      if forwarded
      then t.open && t.answers == s.answers && t.reg == s.reg[correlationId := sender] && t.queue == s.queue[1..]
      else !t.open && sender in t.answers && t.answers[sender] == Closed
    case Out(replyId, reply) =>
      if replyId in s.reg
      then
        && s.reg[replyId] in t.answers && t.answers[s.reg[replyId]] == Replied(reply)
        && (reply.Written? ==> t.open && t.reg == s.reg - {replyId} && t.queue == s.queue[1..])
        && (reply.Refused? ==> !t.open)
      else t == s.(queue := s.queue[1..])
    case Error(code) =>
      && !t.open
      && forall call | call in Pending(s.reg) :: call in t.answers && t.answers[call] == SessionError(code)
  }

  lemma TurnHandlesItsMessage(steps: seq<Step>, forwarded: bool)
    requires AdmissibleRun(steps) && Run(steps).open && Run(steps).queue != []
    ensures Handles(Run(steps), Dispatch(Run(steps), forwarded), forwarded)
  {
    RunKeeps(steps);
    var s := Run(steps);
    match s.queue[0] {
      case In(_, sender) => RequestIsHandled(s, forwarded);
      case Out(replyId, reply) => if replyId in s.reg { ResponseIsHandled(s, forwarded); }
      case Error(code) =>
        var answers := s.answers + AnswerAll(Pending(s.reg), SessionError(code));
        var told := s.(queue := s.queue[1..], reg := map[], answers := answers);
        TakenHead(s.queue);
        forall call | call in Pending(s.reg)
          ensures call in Stopped(told).answers && Stopped(told).answers[call] == SessionError(code)
        {
          WaitingInOnePlace(steps, call);
          StoppedAnswers(told, call);
        }
    }
  }

  lemma RequestIsHandled(s: Session, forwarded: bool)
    requires Inv(s) && s.open && s.queue != [] && s.queue[0].In?
    ensures Handles(s, Dispatch(s, forwarded), forwarded)
  {
    var sender := s.queue[0].sender;
    if !forwarded {
      StoppedAnswers(s.(queue := s.queue[1..], answers := s.answers[sender := Closed]), sender);
    }
  }

  lemma ResponseIsHandled(s: Session, forwarded: bool)
    requires Inv(s) && s.open && s.queue != [] && s.queue[0].Out? && s.queue[0].replyId in s.reg
    ensures Handles(s, Dispatch(s, forwarded), forwarded)
  {
    TakenHead(s.queue);
    var replyId, reply := s.queue[0].replyId, s.queue[0].reply;
    var call := s.reg[replyId];
    RegisteredOnce(s, replyId);
    StoppedAnswers(s.(queue := s.queue[1..], reg := s.reg - {replyId}, answers := s.answers[call := Replied(reply)]),
                   call);
  }

  /** A registered call waits under no other id and in no request. */
  lemma RegisteredOnce(s: Session, id: CorrelationId)
    requires Inv(s) && id in s.reg
    ensures s.reg[id] !in Pending(s.reg - {id}) && s.reg[id] !in Queued(s.queue)
  {
  }

  /** What one dispatched message can do to one caller. */
  lemma DispatchAnswers(s: Session, forwarded: bool, call: Call)
    requires Inv(s)
    ensures call in s.answers ==> call in Dispatch(s, forwarded).answers
    ensures call in s.answers ==> Dispatch(s, forwarded).answers[call] == s.answers[call]
    ensures
      var t := Dispatch(s, forwarded);
      call in t.answers && call !in s.answers && t.answers[call].Replied? ==>
        && call in s.calls
        && s.queue != [] && s.queue[0] == Out(s.calls[call], t.answers[call].reply)
  {
    if s.open && s.queue != [] {
      TakenHead(s.queue);
      var rest := s.(queue := s.queue[1..]);
      match s.queue[0] {
        case In(correlationId, sender) =>
          if !forwarded { StoppedAnswers(rest.(answers := s.answers[sender := Closed]), call); }
        case Out(replyId, reply) =>
          if replyId in s.reg {
            var answered := rest.(reg := s.reg - {replyId}, answers := s.answers[s.reg[replyId] := Replied(reply)]);
            assert Pending(answered.reg) <= Pending(s.reg);
            StoppedAnswers(answered, call);
          }
        case Error(code) =>
          var told := s.answers + AnswerAll(Pending(s.reg), SessionError(code));
          StoppedAnswers(rest.(reg := map[], answers := told), call);
      }
    }
  }

  lemma AnswerIsKept(s: Session, step: Step, call: Call)
    requires Inv(s) && Admissible(s, step) && call in s.answers
    ensures call in Next(s, step).answers && Next(s, step).answers[call] == s.answers[call]
  {
    if step.Dispatched? { DispatchAnswers(s, step.forwarded, call); }
  }

  /** Answers are final: in every continuation an answered call keeps the one answer it got. */
  lemma {:induction false} AnsweredOnce(steps: seq<Step>, more: seq<Step>, call: Call)
    requires AdmissibleRun(steps + more)
    requires call in Run(steps).answers
    ensures call in Run(steps + more).answers
    ensures Run(steps + more).answers[call] == Run(steps).answers[call]
    decreases |more|
  {
    if more == [] {
      assert steps + more == steps;
    } else {
      var before := steps + more[..|more| - 1];
      assert (steps + more)[..|steps + more| - 1] == before;
      AnsweredOnce(steps, more[..|more| - 1], call);
      RunKeeps(before);
      AnswerIsKept(Run(before), more[|more| - 1], call);
    }
  }

  /**
   A reply reaches a caller only from the response that carries the caller's own
   correlation id.
   */
  lemma RepliesAreRouted(steps: seq<Step>, forwarded: bool, call: Call)
    requires AdmissibleRun(steps)
    ensures
      var s, t := Run(steps), Run(steps + [Dispatched(forwarded)]);
      call in t.answers && call !in s.answers && t.answers[call].Replied? ==>
        && call in s.calls
        && s.queue != [] && s.queue[0] == Out(s.calls[call], t.answers[call].reply)
  {
    assert (steps + [Dispatched(forwarded)])[..|steps|] == steps;
    RunKeeps(steps);
    DispatchAnswers(Run(steps), forwarded, call);
  }

  /**
   A forwarded request is registered under its own id for its own caller, who keeps
   waiting, and nobody else notices.
   */
  lemma ForwardedIsRegistered(steps: seq<Step>)
    requires AdmissibleRun(steps) && Run(steps).open
    requires Run(steps).queue != [] && Run(steps).queue[0].In?
    ensures var s, t := Run(steps), Run(steps + [Dispatched(true)]);
      && t.open && t.answers == s.answers && t.queue == s.queue[1..]
      && t.reg == s.reg[s.queue[0].correlationId := s.queue[0].sender]
      && s.queue[0].correlationId !in s.reg
  {
    assert (steps + [Dispatched(true)])[..|steps|] == steps;
    RunKeeps(steps);
    RequestIsHandled(Run(steps), true);
    assert QueueOk(Run(steps));
  }

  /** The turn after which the session is over: an error, a request not forwarded, or a refusal of a waiting call. */
  lemma SessionEndsOn(steps: seq<Step>, forwarded: bool)
    requires AdmissibleRun(steps) && Run(steps).open && Run(steps).queue != []
    ensures !Run(steps + [Dispatched(forwarded)]).open
       <==> match Run(steps).queue[0]
            case Error(_) => true
            case In(_, _) => !forwarded
            case Out(id, reply) =>
              && reply.Refused?
              && exists call :: && call in Run(steps).calls && Run(steps).calls[call] == id
                                && call !in Run(steps).answers && call !in Queued(Run(steps).queue)
  {
    assert (steps + [Dispatched(forwarded)])[..|steps|] == steps;
    RunKeeps(steps);
    var s := Run(steps);
    if s.queue[0].Out? && s.queue[0].replyId in s.reg {
      var call := s.reg[s.queue[0].replyId];
      WaitingInOnePlace(steps, call);
    }
  }

  /** As long as the session is open the only answers are writes: nobody was refused, failed or closed. */
  lemma {:induction false} OpenSessionOnlyWrites(steps: seq<Step>, call: Call)
    requires AdmissibleRun(steps) && Run(steps).open && call in Run(steps).answers
    ensures Run(steps).answers[call].Replied? && Run(steps).answers[call].reply.Written?
  {
    var before := steps[..|steps| - 1];
    if call in Run(before).answers {
      RunKeeps(before);
      AnswerIsKept(Run(before), steps[|steps| - 1], call);
      OpenSessionOnlyWrites(before, call);
    } else {
      RunKeeps(before);
      StepOnlyWrites(Run(before), steps[|steps| - 1], call);
    }
  }

  lemma StepOnlyWrites(s: Session, step: Step, call: Call)
    requires Inv(s) && Next(s, step).open && call in Next(s, step).answers && call !in s.answers
    ensures Next(s, step).answers[call].Replied? && Next(s, step).answers[call].reply.Written?
  {
    assert step.Dispatched? && s.queue != [];
  }

  /** A request that left the queue never comes back to it. */
  lemma {:induction false} NeverQueuedAgain(steps: seq<Step>, more: seq<Step>, call: Call)
    requires AdmissibleRun(steps + more)
    requires call in Run(steps).calls && call !in Queued(Run(steps).queue)
    ensures call in Run(steps + more).calls && Run(steps + more).calls[call] == Run(steps).calls[call]
    ensures call !in Queued(Run(steps + more).queue)
    decreases |more|
  {
    if more == [] {
      assert steps + more == steps;
    } else {
      var before := steps + more[..|more| - 1];
      assert (steps + more)[..|steps + more| - 1] == before;
      NeverQueuedAgain(steps, more[..|more| - 1], call);
      RunKeeps(before);
      StaysOut(Run(before), more[|more| - 1], call);
    }
  }

  lemma StaysOut(s: Session, step: Step, call: Call)
    requires Inv(s) && Admissible(s, step) && call in s.calls && call !in Queued(s.queue)
    ensures call in Next(s, step).calls && Next(s, step).calls[call] == s.calls[call]
    ensures call !in Queued(Next(s, step).queue)
  {
    if step.Dispatched? && s.open && s.queue != [] { TakenHead(s.queue); }
  }

  /**
   End to end: a call that was submitted and forwarded, and then responded to under its
   id, however much happened in between, gets the content of that first response.
   */
  lemma ForwardedCallGetsItsReply(steps: seq<Step>, more: seq<Step>, forwarded: bool, call: Call, reply: Reply)
    requires AdmissibleRun(steps + [Dispatched(true)] + more)
    requires Run(steps).open && Run(steps).queue != [] && call in Run(steps).calls
    requires Run(steps).queue[0] == In(Run(steps).calls[call], call)
    requires var t := Run(steps + [Dispatched(true)] + more);
      && t.open && t.queue != [] && t.queue[0] == Out(Run(steps).calls[call], reply)
      && call !in t.answers
    ensures var u := Run(steps + [Dispatched(true)] + more + [Dispatched(forwarded)]);
      call in u.answers && u.answers[call] == Replied(reply)
  {
    var sent := steps + [Dispatched(true)];
    AdmissiblePrefix(sent, more);
    AdmissiblePrefix(steps, [Dispatched(true)]);
    assert sent[..|steps|] == steps;
    RunKeeps(steps);
    TakenOnce(Run(steps));
    NeverQueuedAgain(sent, more, call);
    WaitingInOnePlace(sent + more, call);
    ResponsesReachTheirCaller(sent + more, forwarded, call, reply);
  }

  /** The request at the head of the queue is queued once. */
  lemma TakenOnce(s: Session)
    requires Inv(s) && s.queue != [] && s.queue[0].In?
    ensures s.queue[0].sender !in Queued(s.queue[1..])
  {
    assert forall i | 0 <= i < |s.queue[1..]| :: s.queue[1..][i] == s.queue[i + 1];
  }

  lemma {:induction false} AdmissiblePrefix(steps: seq<Step>, more: seq<Step>)
    requires AdmissibleRun(steps + more)
    ensures AdmissibleRun(steps)
    decreases |more|
  {
    if more == [] {
      assert steps + more == steps;
    } else {
      assert (steps + more)[..|steps + more| - 1] == steps + more[..|more| - 1];
      AdmissiblePrefix(steps, more[..|more| - 1]);
    }
  }

  /** A response answers the call it names with its own content; only a refusal ends the session for the others. */
  lemma ResponsesReachTheirCaller(steps: seq<Step>, forwarded: bool, call: Call, reply: Reply)
    requires AdmissibleRun(steps) && Run(steps).open
    requires call in Pending(Run(steps).reg)
    requires call in Run(steps).calls && Run(steps).queue != []
    requires Run(steps).queue[0] == Out(Run(steps).calls[call], reply)
    ensures
      var s, t := Run(steps), Run(steps + [Dispatched(forwarded)]);
      && call in t.answers && t.answers[call] == Replied(reply)
      && t.open == reply.Written?
      && forall other | other in Pending(s.reg) && other != call ::
           if t.open then other in Pending(t.reg) else other in t.answers && t.answers[other] == Closed
  {
    assert (steps + [Dispatched(forwarded)])[..|steps|] == steps;
    RunKeeps(steps);
    var s := Run(steps);
    var replyId := s.calls[call];
    PendingWithout(s.reg, replyId);
    TakenHead(s.queue);
    var answered := s.(queue := s.queue[1..], reg := s.reg - {replyId}, answers := s.answers[call := Replied(reply)]);
    StoppedAnswers(answered, call);
  }

  /**
   A response disturbs nobody exactly when no call is registered under its id: when its
   id is unknown, when it is a duplicate for a call already answered, or when it comes
   before its call was forwarded.
   */
  lemma UnknownResponsesDisturbNobody(steps: seq<Step>, forwarded: bool)
    requires AdmissibleRun(steps)
    requires Run(steps).open && Run(steps).queue != [] && Run(steps).queue[0].Out?
    ensures var s := Run(steps);
      Run(steps + [Dispatched(forwarded)]) == s.(queue := s.queue[1..])
      <==> forall call | call in s.calls && s.calls[call] == s.queue[0].replyId ::
             call in s.answers || call in Queued(s.queue)
  {
    assert (steps + [Dispatched(forwarded)])[..|steps|] == steps;
    RunKeeps(steps);
    var s := Run(steps);
    var replyId := s.queue[0].replyId;
    if replyId in s.reg {
      WaitingInOnePlace(steps, s.reg[replyId]);
    } else {
      forall call | call in s.calls && s.calls[call] == replyId
        ensures call !in Pending(s.reg)
      {
      }
    }
  }

  /** How a call that had no answer before this step may have got one when the session is over. */
  predicate ToldBy(s: Session, correlationId: CorrelationId, registered: bool, answer: Answer) {
    match answer
    case Closed => true
    case SessionError(code) => registered && s.queue != [] && s.queue[0] == Error(code)
    case Replied(reply) => reply.Refused? && s.queue != [] && s.queue[0] == Out(correlationId, reply)
  }

  /** The turn that ends the session: what a call without an answer is told. */
  lemma StopAnswersEveryone(s: Session, forwarded: bool, call: Call)
    requires Inv(s) && s.open && !Dispatch(s, forwarded).open && call in s.calls
    ensures call in Dispatch(s, forwarded).answers
    ensures call !in s.answers ==>
      ToldBy(s, s.calls[call], call in Pending(s.reg), Dispatch(s, forwarded).answers[call])
    ensures Dispatch(s, forwarded).calls == s.calls
  {
    TakenHead(s.queue);
    var rest := s.(queue := s.queue[1..]);
    match s.queue[0] {
      case In(correlationId, sender) =>
        StoppedAnswers(rest.(answers := s.answers[sender := Closed]), call);
      case Out(replyId, reply) =>
        PendingWithout(s.reg, replyId);
        StoppedAnswers(rest.(reg := s.reg - {replyId}, answers := s.answers[s.reg[replyId] := Replied(reply)]), call);
      case Error(code) =>
        StoppedAnswers(rest.(reg := map[], answers := s.answers + AnswerAll(Pending(s.reg), SessionError(code))), call);
    }
  }

  /**
   Nobody is left waiting.  In the step that ends the session, or after it, every call
   has its answer, and one that had none so far gets the session's own error, or learns
   that the session closed; only the call whose refusal ended the session gets a reply.
   */
  lemma NobodyIsLeftWaiting(steps: seq<Step>, step: Step, call: Call)
    requires AdmissibleRun(steps + [step]) && !Run(steps + [step]).open && call in Run(steps + [step]).calls
    ensures call in Run(steps + [step]).answers
    ensures
      var s, t := Run(steps), Run(steps + [step]);
      call !in s.answers ==> ToldBy(s, t.calls[call], call in Pending(s.reg), t.answers[call])
  {
    assert (steps + [step])[..|steps|] == steps;
    RunKeeps(steps);
    StepLeavesNobody(Run(steps), step, call);
  }

  lemma StepLeavesNobody(s: Session, step: Step, call: Call)
    requires Inv(s) && !Next(s, step).open && call in Next(s, step).calls
    ensures call in Next(s, step).answers
    ensures call !in s.answers ==>
      ToldBy(s, Next(s, step).calls[call], call in Pending(s.reg), Next(s, step).answers[call])
  {
    match step {
      case Submitted(_, _) =>
      case Arrived(_) =>
      case Dispatched(forwarded) =>
        if s.open { StopAnswersEveryone(s, forwarded, call); }
    }
  }

  /** While the dispatcher runs, an unanswered call is waiting in exactly one place. */
  lemma WaitingInOnePlace(steps: seq<Step>, call: Call)
    requires AdmissibleRun(steps) && call in Run(steps).calls
    ensures var s := Run(steps);
      && (call in s.answers || call in Pending(s.reg) || call in Queued(s.queue))
      && !(call in s.answers && call in Pending(s.reg))
      && !(call in s.answers && call in Queued(s.queue))
      && !(call in Pending(s.reg) && call in Queued(s.queue))
  {
    RunKeeps(steps);
  }

  /** The session's error reaches every registered call as it is; calls still queued learn that it closed. */
  lemma ErrorsReachEveryone(steps: seq<Step>, forwarded: bool, call: Call)
    requires AdmissibleRun(steps) && Run(steps).open
    requires Run(steps).queue != [] && Run(steps).queue[0].Error?
    requires call in Run(steps).calls && call !in Run(steps).answers
    ensures
      var s, t := Run(steps), Run(steps + [Dispatched(forwarded)]);
      && !t.open && call in t.answers
      && t.answers[call] == if call in Pending(s.reg) then SessionError(s.queue[0].code) else Closed
  {
    assert (steps + [Dispatched(forwarded)])[..|steps|] == steps;
    WaitingInOnePlace(steps, call);
    var s := Run(steps);
    TakenHead(s.queue);
    var told := s.(queue := s.queue[1..], reg := map[],
                   answers := s.answers + AnswerAll(Pending(s.reg), SessionError(s.queue[0].code)));
    assert Pending(told.reg) == {};
    StoppedAnswers(told, call);
    assert Dispatch(s, forwarded) == Stopped(told);
  }

  // ---------------------------------------------------------------- the running client

  /** One turn of the dispatcher per forwarding result. */
  function Turns(forwards: seq<bool>): seq<Step> {
    seq(|forwards|, i requires 0 <= i < |forwards| => Dispatched(forwards[i]))
  }

  /** What a dispatcher that keeps running has left to do after so many turns. */
  function Rest(queue: seq<BatchMsg>, turns: nat): seq<BatchMsg> {
    if turns <= |queue| then queue[turns..] else []
  }

  lemma TurnTakesHead(s: Session, forwarded: bool, queue: seq<BatchMsg>, turns: nat)
    requires s.open ==> s.queue == Rest(queue, turns)
    ensures Dispatch(s, forwarded).calls == s.calls
    ensures Dispatch(s, forwarded).open ==> Dispatch(s, forwarded).queue == Rest(queue, turns + 1)
  {
  }

  lemma NobodyIsQueued(s: Session)
    requires Inv(s) && (s.open ==> s.queue == [])
    ensures forall call | call in s.calls :: call in s.answers || call in Pending(s.reg)
    ensures !s.open ==> forall call | call in s.calls :: call in s.answers
  {
    assert Queued([]) == {};
  }

  /** The client and its dispatcher task, which share the channel. */
  class BatchAppendClient {
    var queue: seq<BatchMsg>
    var reg: Registry
    var open: bool
    var calls: map<Call, CorrelationId>
    var answers: map<Call, Answer>

    /** Everything that happened so far: what holds of every run holds of this object at any time. */
    ghost var steps: seq<Step>

    function State(): Session
      reads this
    {
      Session(queue, reg, open, calls, answers)
    }

    ghost predicate Valid()
      reads this
    {
      AdmissibleRun(steps) && State() == Run(steps)
    }

    constructor ()
      ensures Valid() && State() == START
    {
      queue, reg, open, calls, answers := [], map[], true, map[], map[];
      steps := [];
    }

    /** A step taken by the client is the next step of its run. */
    lemma Records(before: seq<Step>, step: Step)
      requires AdmissibleRun(before) && Admissible(Run(before), step)
      ensures AdmissibleRun(before + [step]) && Run(before + [step]) == Next(Run(before), step)
    {
      assert (before + [step])[..|before|] == before;
    }

    /** A call up to the point where it waits for its answer. */
    method AppendToStream(call: Call, correlationId: CorrelationId)
      requires Valid() && Admissible(State(), Submitted(call, correlationId))
      modifies this
      ensures Valid() && steps == old(steps) + [Submitted(call, correlationId)]
      ensures call in calls && calls[call] == correlationId
      ensures if old(open) then call in Queued(queue) && call !in answers && call !in Pending(reg)
              else call in answers && answers[call] == Closed
      ensures forall other | other in old(calls) ::
        && other in calls && calls[other] == old(calls)[other]
        && (other in answers <==> other in old(answers))
        && (other in old(answers) ==> answers[other] == old(answers)[other])
    {
      Records(steps, Submitted(call, correlationId));
      calls := calls[call := correlationId];
      if open {
        queue := queue + [In(correlationId, call)];
        assert queue[|queue| - 1] == In(correlationId, call);
      } else {
        answers := answers[call := Closed];
      }
      RunKeeps(steps);
      steps := steps + [Submitted(call, correlationId)];
      RunKeeps(steps);
      WaitingInOnePlace(steps, call);
    }

    /** The reader task of the session puts a reply, or its final error, on the channel. */
    method Enqueue(msg: BatchMsg)
      requires Valid() && !msg.In?
      modifies this
      ensures Valid() && steps == old(steps) + [Arrived(msg)]
      ensures answers == old(answers) && calls == old(calls) && reg == old(reg) && open == old(open)
      ensures queue == if open then old(queue) + [msg] else []
    {
      RunKeeps(steps);
      Records(steps, Arrived(msg));
      if open { queue := queue + [msg]; }
      steps := steps + [Arrived(msg)];
    }

    /** Senders that go out of scope tell their callers that the session is closed. */
    method DropSenders(senders: set<Call>, answer: Answer)
      modifies `answers
      ensures answers == old(answers) + AnswerAll(senders, answer)
    {
      var left := senders;
      while left != {}
        invariant left <= senders
        invariant answers == old(answers) + AnswerAll(senders - left, answer)
        decreases left
      {
        var sender :| sender in left;
        left := left - {sender};
        assert AnswerAll(senders - left, answer) == AnswerAll(senders - left - {sender}, answer)[sender := answer];
        answers := answers[sender := answer];
      }
    }

    /** The dispatcher returns: its channel closes and everything it owns is dropped. */
    method Stop()
      modifies `queue, `reg, `open, `answers
      ensures State() == Stopped(old(State()))
    {
      DropSenders(Pending(reg) + Queued(queue), Closed);
      reg, queue, open := map[], [], false;
    }

    /** The message at the head of the queue is taken and acted on. */
    method TakeMessage(forwarded: bool)
      requires open && queue != []
      modifies `queue, `reg, `open, `answers
      ensures State() == Dispatch(old(State()), forwarded)
    {
      var msg := queue[0];
      queue := queue[1..];
      match msg {
        case In(correlationId, sender) =>
          if forwarded {
            if correlationId in reg { DropSenders({reg[correlationId]}, Closed); }
            reg := reg[correlationId := sender];
            return;
          }
          answers := answers[sender := Closed];
          Stop();
        case Out(replyId, reply) =>
          if replyId in reg {
            var entry := reg[replyId];
            reg := reg - {replyId};
            answers := answers[entry := Replied(reply)];
            if reply.Refused? { Stop(); }
          }
        case Error(code) =>
          DropSenders(Pending(reg), SessionError(code));
          reg := map[];
          Stop();
      }
    }

    /** One turn of the dispatcher loop. */
    method DispatchOne(forwarded: bool)
      requires Valid()
      modifies this
      ensures Valid() && steps == old(steps) + [Dispatched(forwarded)]
      ensures State() == Dispatch(old(State()), forwarded)
      ensures old(open) && old(queue) != [] ==> Handles(old(State()), State(), forwarded)
    {
      Records(steps, Dispatched(forwarded));
      ghost var before := steps;
      steps := steps + [Dispatched(forwarded)];
      if open && queue != [] {
        TakeMessage(forwarded);
        TurnHandlesItsMessage(before, forwarded);
      }
    }

    /**
     The dispatcher loop over what is queued, one forwarding result per turn.  Given a
     turn for every queued message, it leaves no call behind in the queue: each one has
     its answer, or is registered to be answered, or the session is over and all have
     theirs; no answer given before is touched.
     */
    method DispatchQueued(forwards: seq<bool>)
      requires Valid()
      modifies this
      ensures Valid() && steps == old(steps) + Turns(forwards) && calls == old(calls)
      ensures forall call | call in old(answers) :: call in answers && answers[call] == old(answers)[call]
      ensures open ==> queue == Rest(old(queue), |forwards|)
      ensures |forwards| >= |old(queue)| ==> forall call | call in calls :: call in answers || call in Pending(reg)
      ensures !open ==> forall call | call in calls :: call in answers
    {
      ghost var before := steps;
      ghost var waiting := queue;
      for i := 0 to |forwards|
        invariant Valid() && steps == before + Turns(forwards[..i]) && calls == old(calls)
        invariant open ==> queue == Rest(waiting, i)
      {
        TurnTakesHead(State(), forwards[i], waiting, i);
        DispatchOne(forwards[i]);
        assert Turns(forwards[..i + 1]) == Turns(forwards[..i]) + [Dispatched(forwards[i])];
      }
      assert forwards[..|forwards|] == forwards;
      RunKeeps(steps);
      if !open || |forwards| >= |waiting| { NobodyIsQueued(State()); }
      forall call | call in old(answers)
        ensures call in answers && answers[call] == old(answers)[call]
      {
        AnsweredOnce(before, Turns(forwards), call);
      }
    }
  }
}
