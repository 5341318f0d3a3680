// One CWMP session at the level of messages (internal/cwmp/session.go): the
// Inform, the device's own calls, then answering the server until it closes. The
// server is a script of replies, any of which may be wrong.
module Sessions {
  import opened Events

  const METHOD_NOT_SUPPORTED := 9000
  const INTERNAL_ERROR := 9002

  /** How the device's handler for a server request ends. */
  datatype Handling = Handled | HandlerFault(code: int) | HandlerError

  /** What comes back for one message. NotSent covers a body that cannot be built,
      Lost a transport error, Garbled a reply that does not decode. */
  datatype Reply =
    | NotSent
    | Lost
    | Close
    | Garbled
    | FaultReply
    | Message(name: string, handling: Handling)

  datatype Sent =
    | Inform(events: seq<Event>, retryCount: nat)
    | Call(rpc: Rpc)
    | EmptyPost
    | Response(name: string)
    | Fault(code: int)

  datatype Exchange = Exchange(sent: Sent, reply: Reply)

  /** The transcript of a session and whether it returned no error. */
  datatype Talk = Talk(ok: bool, log: seq<Exchange>)

  function MethodOf(rpc: Rpc): string {
    match rpc
    case TransferRpc(_) => "TransferComplete"
    case DURpc(_) => "DUStateChangeComplete"
  }

  predicate Answers(reply: Reply, name: string) {
    reply.Message? && reply.name == name + "Response"
  }

  /** The device's own calls of one session: transfers first, each in drained order. */
  function Calls(ts: seq<TransferRecord>, ds: seq<DURecord>): (r: seq<Rpc>)
    ensures |r| == |ts| + |ds|
    ensures forall i | 0 <= i < |ts| :: r[i] == TransferRpc(ts[i])
    ensures forall i | 0 <= i < |ds| :: r[|ts| + i] == DURpc(ds[i])
  {
    seq(|ts|, i requires 0 <= i < |ts| => TransferRpc(ts[i])) + seq(|ds|, i requires 0 <= i < |ds| => DURpc(ds[i]))
  }

  /** What the device sends back for a server request. */
  function AnswerTo(handlers: set<string>, name: string, handling: Handling): Sent {
    if name !in handlers then Fault(METHOD_NOT_SUPPORTED)
    else
      match handling
      case Handled => Response(name + "Response")
      case HandlerFault(code) => Fault(code)
      case HandlerError => Fault(INTERNAL_ERROR)
  }

  // ---------- The conversation as a function of the script ----------

  // Each function continues the transcript log; its length is the position in the
  // script, because every message sent takes one reply.

  /** Sends outbound and answers server requests until the server closes. */
  function Answering(handlers: set<string>, acs: seq<Reply>, outbound: Sent, log: seq<Exchange>): Talk
    decreases |acs| - |log|
  {
    if |log| >= |acs| then Talk(false, log)
    else
      var reply := acs[|log|];
      var next := log + [Exchange(outbound, reply)];
      match reply
      case Close => Talk(true, next)
      case Message(name, handling) => Answering(handlers, acs, AnswerTo(handlers, name, handling), next)
      case _ => Talk(false, next)
  }

  /** Makes the calls that remain after the Inform and the calls in log. */
  function Calling(handlers: set<string>, rpcs: seq<Rpc>, acs: seq<Reply>, log: seq<Exchange>): Talk
    requires log != []
    decreases |acs| - |log|
  {
    var i := |log| - 1;
    if i >= |rpcs| then Answering(handlers, acs, EmptyPost, log)
    else if |log| >= |acs| then Talk(false, log)
    else
      var reply := acs[|log|];
      var next := log + [Exchange(Call(rpcs[i]), reply)];
      if Answers(reply, MethodOf(rpcs[i])) then Calling(handlers, rpcs, acs, next) else Talk(false, next)
  }

  function Conversation(handlers: set<string>, events: seq<Event>, retryCount: nat, rpcs: seq<Rpc>,
                        acs: seq<Reply>): Talk
  {
    if acs == [] then Talk(false, [])
    else
      var log := [Exchange(Inform(events, retryCount), acs[0])];
      if Answers(acs[0], "Inform") then Calling(handlers, rpcs, acs, log) else Talk(false, log)
  }

  // ---------- What a transcript means ----------

  /** The transcript takes the script's replies in order. */
  ghost predicate Reads(acs: seq<Reply>, log: seq<Exchange>) {
    |log| <= |acs| && forall i | 0 <= i < |log| :: log[i].reply == acs[i]
  }

  /** The Inform was answered and the first n calls were made once, in order, each
      answered by its own response. */
  ghost predicate Called(events: seq<Event>, retryCount: nat, rpcs: seq<Rpc>, log: seq<Exchange>, n: nat)
    requires n <= |rpcs|
  {
    && |log| >= n + 1
    && log[0].sent == Inform(events, retryCount) && Answers(log[0].reply, "Inform")
    && forall i | 0 <= i < n :: log[i + 1].sent == Call(rpcs[i]) && Answers(log[i + 1].reply, MethodOf(rpcs[i]))
  }

  /** sent is the device's answer to the server request that ended the exchange x. */
  ghost predicate Follows(handlers: set<string>, x: Exchange, sent: Sent) {
    x.reply.Message? && sent == AnswerTo(handlers, x.reply.name, x.reply.handling)
  }

  /** From exchange k on, the device only answers: an empty post, then after every
      server request its response or fault. */
  ghost predicate AnswersFrom(handlers: set<string>, log: seq<Exchange>, k: nat) {
    && (k < |log| ==> log[k].sent == EmptyPost)
    && forall i | k <= i < |log| - 1 :: Follows(handlers, log[i], log[i + 1].sent)
  }

  /** What may be sent next in that phase. */
  ghost predicate MayFollow(handlers: set<string>, log: seq<Exchange>, k: nat, sent: Sent) {
    && |log| >= k
    && AnswersFrom(handlers, log, k)
    && (if |log| == k then sent == EmptyPost else Follows(handlers, log[|log| - 1], sent))
  }

  /** A clean transcript ends with the server's close, after every call was answered. */
  ghost predicate Clean(handlers: set<string>, events: seq<Event>, retryCount: nat, rpcs: seq<Rpc>,
                        log: seq<Exchange>) {
    && |log| > |rpcs| + 1
    && Called(events, retryCount, rpcs, log, |rpcs|)
    && AnswersFrom(handlers, log, |rpcs| + 1)
    && log[|log| - 1].reply == Close
  }

  lemma {:induction false} AnsweringIsClean(
    handlers: set<string>, events: seq<Event>, retryCount: nat, rpcs: seq<Rpc>, acs: seq<Reply>, outbound: Sent,
    log: seq<Exchange>)
    requires Reads(acs, log) && Called(events, retryCount, rpcs, log, |rpcs|)
    requires MayFollow(handlers, log, |rpcs| + 1, outbound)
    ensures var t := Answering(handlers, acs, outbound, log);
            Reads(acs, t.log) && (t.ok ==> Clean(handlers, events, retryCount, rpcs, t.log))
    decreases |acs| - |log|
  {
    if |log| < |acs| {
      var x := Exchange(outbound, acs[|log|]);
      if x.reply.Message? {
        var next := AnswerTo(handlers, x.reply.name, x.reply.handling);
        assert Follows(handlers, x, next);
        AnsweringIsClean(handlers, events, retryCount, rpcs, acs, next, log + [x]);
      }
    }
  }

  lemma {:induction false} CallingIsClean(
    handlers: set<string>, events: seq<Event>, retryCount: nat, rpcs: seq<Rpc>, acs: seq<Reply>, log: seq<Exchange>)
    requires log != [] && |log| <= |rpcs| + 1
    requires Reads(acs, log) && Called(events, retryCount, rpcs, log, |log| - 1)
    ensures var t := Calling(handlers, rpcs, acs, log);
            Reads(acs, t.log) && (t.ok ==> Clean(handlers, events, retryCount, rpcs, t.log))
    decreases |acs| - |log|
  {
    var i := |log| - 1;
    if i == |rpcs| {
      AnsweringIsClean(handlers, events, retryCount, rpcs, acs, EmptyPost, log);
    } else if |log| < |acs| && Answers(acs[|log|], MethodOf(rpcs[i])) {
      CallingIsClean(handlers, events, retryCount, rpcs, acs, log + [Exchange(Call(rpcs[i]), acs[|log|])]);
    }
  }

  /** A session without an error leaves a clean transcript of the server's replies. */
  lemma SuccessIsClean(handlers: set<string>, events: seq<Event>, retryCount: nat, rpcs: seq<Rpc>, acs: seq<Reply>)
    ensures var t := Conversation(handlers, events, retryCount, rpcs, acs);
            Reads(acs, t.log) && (t.ok ==> Clean(handlers, events, retryCount, rpcs, t.log))
  {
    if acs != [] && Answers(acs[0], "Inform") {
      CallingIsClean(handlers, events, retryCount, rpcs, acs, [Exchange(Inform(events, retryCount), acs[0])]);
    }
  }

  /** The server's side of a clean transcript: n replies that let the session end well. */
  ghost predicate Cooperates(rpcs: seq<Rpc>, acs: seq<Reply>, n: nat) {
    && |rpcs| + 1 < n <= |acs|
    && acs[0].Message? && acs[0].name == "InformResponse"
    && (forall i | 0 <= i < |rpcs| :: Acknowledges(acs[i + 1], rpcs[i]))
    && (forall i | |rpcs| + 1 <= i < n - 1 :: acs[i].Message?)
    && acs[n - 1] == Close
  }

  /** The reply that acknowledges a call of the device. */
  ghost predicate Acknowledges(reply: Reply, rpc: Rpc) {
    && reply.Message?
    && (rpc.TransferRpc? ==> reply.name == "TransferCompleteResponse")
    && (rpc.DURpc? ==> reply.name == "DUStateChangeCompleteResponse")
  }

  lemma AnswersByName(reply: Reply, rpc: Rpc)
    ensures Answers(reply, "Inform") <==> reply.Message? && reply.name == "InformResponse"
    ensures Answers(reply, MethodOf(rpc)) <==> Acknowledges(reply, rpc)
  {
    assert "Inform" + "Response" == "InformResponse";
    assert "TransferComplete" + "Response" == "TransferCompleteResponse";
    assert "DUStateChangeComplete" + "Response" == "DUStateChangeCompleteResponse";
  }

  lemma {:induction false} AnsweringSucceeds(
    handlers: set<string>, rpcs: seq<Rpc>, acs: seq<Reply>, outbound: Sent, log: seq<Exchange>, n: nat)
    requires Cooperates(rpcs, acs, n) && |rpcs| < |log| < n
    ensures Answering(handlers, acs, outbound, log).ok
    decreases n - |log|
  {
    if |log| < n - 1 {
      var reply := acs[|log|];
      var answer := AnswerTo(handlers, reply.name, reply.handling);
      AnsweringSucceeds(handlers, rpcs, acs, answer, log + [Exchange(outbound, reply)], n);
    }
  }

  lemma {:induction false} CallingSucceeds(handlers: set<string>, rpcs: seq<Rpc>, acs: seq<Reply>,
                                           log: seq<Exchange>, n: nat)
    requires Cooperates(rpcs, acs, n) && 1 <= |log| <= |rpcs| + 1
    ensures Calling(handlers, rpcs, acs, log).ok
    decreases |rpcs| + 1 - |log|
  {
    var i := |log| - 1;
    if i == |rpcs| {
      AnsweringSucceeds(handlers, rpcs, acs, EmptyPost, log, n);
    } else {
      AnswersByName(acs[i + 1], rpcs[i]);
      CallingSucceeds(handlers, rpcs, acs, log + [Exchange(Call(rpcs[i]), acs[|log|])], n);
    }
  }

  lemma CleanMeansCooperation(
    handlers: set<string>, events: seq<Event>, retryCount: nat, rpcs: seq<Rpc>, acs: seq<Reply>, log: seq<Exchange>)
    requires Reads(acs, log) && Clean(handlers, events, retryCount, rpcs, log)
    ensures Cooperates(rpcs, acs, |log|)
  {
    AnswersByName(acs[0], TransferRpc(TransferRecord("", 0, "", 0, 0)));
    forall i | 0 <= i < |rpcs|
      ensures Acknowledges(acs[i + 1], rpcs[i])
    {
      assert Answers(log[i + 1].reply, MethodOf(rpcs[i]));
      AnswersByName(acs[i + 1], rpcs[i]);
    }
    forall i | |rpcs| + 1 <= i < |log| - 1
      ensures acs[i].Message?
    {
      assert Follows(handlers, log[i], log[i + 1].sent);
    }
  }

  /** A session ends without error exactly when the server answers the Inform and
      each call with the matching response, sends well-formed requests, and closes. */
  lemma SucceedsExactly(handlers: set<string>, events: seq<Event>, retryCount: nat, rpcs: seq<Rpc>, acs: seq<Reply>)
    ensures Conversation(handlers, events, retryCount, rpcs, acs).ok <==> exists n: nat :: Cooperates(rpcs, acs, n)
  {
    var t := Conversation(handlers, events, retryCount, rpcs, acs);
    SuccessIsClean(handlers, events, retryCount, rpcs, acs);
    if t.ok {
      CleanMeansCooperation(handlers, events, retryCount, rpcs, acs, t.log);
    }
    if n: nat :| Cooperates(rpcs, acs, n) {
      AnswersByName(acs[0], TransferRpc(TransferRecord("", 0, "", 0, 0)));
      CallingSucceeds(handlers, rpcs, acs, [Exchange(Inform(events, retryCount), acs[0])], n);
    }
  }

  // ---------- Calls made, whatever the outcome ----------

  function CallsIn(log: seq<Exchange>): seq<Rpc> {
    if log == [] then []
    else
      var last := log[|log| - 1].sent;
      CallsIn(log[..|log| - 1]) + if last.Call? then [last.rpc] else []
  }

  lemma CallsInLonger(log: seq<Exchange>, x: Exchange)
    ensures CallsIn(log + [x]) == CallsIn(log) + if x.sent.Call? then [x.sent.rpc] else []
  {
    assert (log + [x])[..|log|] == log;
  }

  lemma {:induction false} AnsweringCalls(handlers: set<string>, acs: seq<Reply>, outbound: Sent, log: seq<Exchange>)
    requires !outbound.Call?
    ensures CallsIn(Answering(handlers, acs, outbound, log).log) == CallsIn(log)
    decreases |acs| - |log|
  {
    if |log| < |acs| {
      var x := Exchange(outbound, acs[|log|]);
      CallsInLonger(log, x);
      if x.reply.Message? {
        AnsweringCalls(handlers, acs, AnswerTo(handlers, x.reply.name, x.reply.handling), log + [x]);
      }
    }
  }

  lemma {:induction false} CallingCalls(handlers: set<string>, rpcs: seq<Rpc>, acs: seq<Reply>, log: seq<Exchange>)
    requires log != [] && |log| <= |rpcs| + 1 && CallsIn(log) == rpcs[..|log| - 1]
    ensures var t := Calling(handlers, rpcs, acs, log);
            CallsIn(t.log) <= rpcs && (t.ok ==> CallsIn(t.log) == rpcs)
    decreases |acs| - |log|
  {
    var i := |log| - 1;
    if i == |rpcs| {
      AnsweringCalls(handlers, acs, EmptyPost, log);
    } else if |log| < |acs| {
      var x := Exchange(Call(rpcs[i]), acs[|log|]);
      CallsInLonger(log, x);
      assert rpcs[..i] + [rpcs[i]] == rpcs[..i + 1];
      if Answers(x.reply, MethodOf(rpcs[i])) {
        CallingCalls(handlers, rpcs, acs, log + [x]);
      }
    }
  }

  /** A session makes a prefix of its calls in order, and all of them exactly once
      when it ends well. */
  lemma CallsMade(handlers: set<string>, events: seq<Event>, retryCount: nat, rpcs: seq<Rpc>, acs: seq<Reply>)
    ensures var t := Conversation(handlers, events, retryCount, rpcs, acs);
            CallsIn(t.log) <= rpcs && (t.ok ==> CallsIn(t.log) == rpcs)
  {
    if acs != [] {
      var x := Exchange(Inform(events, retryCount), acs[0]);
      CallsInLonger([], x);
      assert [] + [x] == [x];
      if Answers(acs[0], "Inform") {
        CallingCalls(handlers, rpcs, acs, [x]);
      }
    }
  }

  // ---------- Answers, whatever the outcome ----------

  /** What the device sends after a server message: a fault of 9000 for a method it has
      no handler for, the handler's own fault, 9002 when the handler just fails, and
      otherwise the method's response. */
  ghost predicate AnsweredAs(handlers: set<string>, name: string, handling: Handling, sent: Sent) {
    && (name !in handlers ==> sent == Fault(9000))
    && (name in handlers && handling.HandlerFault? ==> sent == Fault(handling.code))
    && (name in handlers && handling.HandlerError? ==> sent == Fault(9002))
    && (name in handlers && handling.Handled? ==> sent == Response(name + "Response"))
  }

  /** The messages from exchange k on: an empty post, then one answer to each message. */
  ghost predicate AnswersEach(handlers: set<string>, log: seq<Exchange>, k: nat) {
    && (k < |log| ==> log[k].sent == EmptyPost)
    && forall i | k <= i < |log| - 1 :: Prompts(handlers, log[i].reply, log[i + 1].sent)
  }

  ghost predicate Prompts(handlers: set<string>, reply: Reply, sent: Sent) {
    reply.Message? && AnsweredAs(handlers, reply.name, reply.handling, sent)
  }

  lemma {:induction false} AnsweringAnswersEach(
    handlers: set<string>, acs: seq<Reply>, outbound: Sent, log: seq<Exchange>, k: nat)
    requires k <= |log| && AnswersEach(handlers, log, k)
    requires if |log| == k then outbound == EmptyPost else Prompts(handlers, log[|log| - 1].reply, outbound)
    ensures var t := Answering(handlers, acs, outbound, log);
            log <= t.log && AnswersEach(handlers, t.log, k)
    decreases |acs| - |log|
  {
    if |log| < |acs| {
      var x := Exchange(outbound, acs[|log|]);
      assert AnswersEach(handlers, log + [x], k);
      if x.reply.Message? {
        AnsweringAnswersEach(handlers, acs, AnswerTo(handlers, x.reply.name, x.reply.handling), log + [x], k);
      }
    }
  }

  lemma {:induction false} CallingAnswersEach(handlers: set<string>, rpcs: seq<Rpc>, acs: seq<Reply>,
                                              log: seq<Exchange>)
    requires log != [] && |log| <= |rpcs| + 1
    ensures var t := Calling(handlers, rpcs, acs, log);
            log <= t.log && AnswersEach(handlers, t.log, |rpcs| + 1)
    decreases |acs| - |log|
  {
    var i := |log| - 1;
    if i == |rpcs| {
      AnsweringAnswersEach(handlers, acs, EmptyPost, log, |rpcs| + 1);
    } else if |log| < |acs| && Answers(acs[|log|], MethodOf(rpcs[i])) {
      CallingAnswersEach(handlers, rpcs, acs, log + [Exchange(Call(rpcs[i]), acs[|log|])]);
    }
  }

  /** Whatever the server sends and however the session ends, it opened with the Inform,
      and after the device's own calls every message was answered as it had to be. */
  lemma EachMessageIsAnswered(handlers: set<string>, events: seq<Event>, retryCount: nat, rpcs: seq<Rpc>,
                              acs: seq<Reply>)
    ensures var log := Conversation(handlers, events, retryCount, rpcs, acs).log;
            && AnswersEach(handlers, log, |rpcs| + 1)
            && (acs != [] ==> log != [] && log[0].sent == Inform(events, retryCount))
  {
    if acs != [] && Answers(acs[0], "Inform") {
      CallingAnswersEach(handlers, rpcs, acs, [Exchange(Inform(events, retryCount), acs[0])]);
    }
  }

  // ---------- The session object ----------

  class Session {
    const handlers: set<string>
    var pendingCPERPCs: seq<Rpc>
    var retryCount: nat

    constructor (handlers: set<string>)
      ensures this.handlers == handlers
    {
      this.handlers := handlers;
      pendingCPERPCs, retryCount := [], 0;
    }

    /** Runs the whole conversation, sending one message at a time. */
    method Run(events: seq<Event>, acs: seq<Reply>) returns (ok: bool, log: seq<Exchange>)
      ensures Talk(ok, log) == Conversation(handlers, events, retryCount, pendingCPERPCs, acs)
    {
      if acs == [] {
        return false, [];
      }
      log := [Exchange(Inform(events, retryCount), acs[0])];
      if !Answers(acs[0], "Inform") {
        return false, log;
      }
      ghost var whole := Conversation(handlers, events, retryCount, pendingCPERPCs, acs);
      for i := 0 to |pendingCPERPCs|
        invariant |log| == i + 1
        invariant whole == Calling(handlers, pendingCPERPCs, acs, log)
      {
        if |log| >= |acs| {
          return false, log;
        }
        var reply := acs[|log|];
        log := log + [Exchange(Call(pendingCPERPCs[i]), reply)];
        if !Answers(reply, MethodOf(pendingCPERPCs[i])) {
          return false, log;
        }
      }
      var outbound := EmptyPost;
      while |log| < |acs|
        invariant whole == Answering(handlers, acs, outbound, log)
        decreases |acs| - |log|
      {
        var reply := acs[|log|];
        log := log + [Exchange(outbound, reply)];
        match reply {
          case Close => return true, log;
          case Message(name, handling) => outbound := AnswerTo(handlers, name, handling);
          case _ => return false, log;
        }
      }
      return false, log;
    }
  }
}
