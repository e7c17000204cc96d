/** The stdio relay: one goroutine carries lines from the client to the MCP server, another carries the
server's lines back, and both share a tracker from request id to method.  Answers carry only an id, so
everything the proxy does with an answer depends on the tracker naming the right method. */
module McpRelay {
  import opened Outcomes

  /** The parts of a JSON-RPC message the proxy looks at; an id is its JSON text. */
  datatype Message = Message(id: Option<string>, verb: string, hasResult: bool, hasError: bool) {
    predicate IsRequest() {
      verb != "" && !hasResult && !hasError && id.Some?
    }

    predicate IsResponse() {
      hasResult || hasError
    }

    function Key(): string {
      if id.Some? then id.value else ""
    }
  }

  /** A line of either stream: a JSON-RPC message, or anything else. */
  datatype Line = Rpc(msg: Message, text: string) | Other(text: string) {
    predicate Asks() {
      Rpc? && msg.IsRequest()
    }

    predicate Answers() {
      Rpc? && msg.IsResponse()
    }
  }

  // ----- The tracker ------------------------------------------------------------------------

  type Pending = map<string, string>

  function Track(pending: Pending, line: Line): Pending {
    if line.Asks() then pending[line.msg.Key() := line.msg.verb] else pending
  }

  /** The method of the request a response answers, if its id is known. */
  function Resolve(pending: Pending, line: Line): Option<string> {
    if line.Answers() && line.msg.Key() in pending then Some(pending[line.msg.Key()]) else None
  }

  function Forget(pending: Pending, line: Line): Pending {
    if line.Answers() then pending - {line.msg.Key()} else pending
  }

  /** What an answer is handed on to: the pin check, the injection scanner, or nothing. */
  datatype Task = NoTask | CheckPins | ScanResult

  function TaskFor(verb: string, answer: Message): Task {
    if !answer.hasResult then NoTask
    else if verb == "tools/list" then CheckPins
    else if verb == "tools/call" then ScanResult
    else NoTask
  }

  /** What the proxy did with a recognised answer: its id, the method it took it for, and the task. */
  datatype Work = Work(id: string, verb: string, task: Task)

  function WorkFor(pending: Pending, line: Line): seq<Work> {
    if Resolve(pending, line).Some?
    then [Work(line.msg.Key(), Resolve(pending, line).value, TaskFor(Resolve(pending, line).value, line.msg))] else []
  }

  class RequestTracker {
    var pending: Pending

    constructor ()
      ensures pending == map[]
    {
      pending := map[];
    }

    method TrackRequest(key: string, name: string)
      modifies this
      ensures pending == old(pending)[key := name]
    {
      pending := pending[key := name];
    }

    /** Finds the method for an id and removes the entry. */
    method ResolveResponse(key: string) returns (name: Option<string>)
      modifies this
      ensures name == if key in old(pending) then Some(old(pending)[key]) else None
      ensures pending == old(pending) - {key}
    {
      if key in pending {
        name := Some(pending[key]);
        pending := pending - {key};
      } else {
        name := None;
        assert pending == pending - {key};
      }
    }

    /** What either relay does with a line before forwarding it: a request is tracked, an answer resolved and
        handed on; the result is the work done. */
    method InspectMessage(line: Line, request: bool) returns (work: seq<Work>)
      modifies this
      ensures request ==> work == [] && pending == Track(old(pending), line)
      ensures !request ==> work == WorkFor(old(pending), line) && pending == Forget(old(pending), line)
    {
      work := [];
      if line.Rpc? {
        if request {
          if line.msg.IsRequest() {
            TrackRequest(line.msg.Key(), line.msg.verb);
          }
        } else if line.msg.IsResponse() {
          var name := ResolveResponse(line.msg.Key());
          if name.Some? {
            var task := NoTask;
            if name.value == "tools/list" && line.msg.hasResult {
              task := CheckPins;
            } else if name.value == "tools/call" && line.msg.hasResult {
              task := ScanResult;
            }
            work := [Work(line.msg.Key(), name.value, task)];
          }
        }
      }
    }
  }

  /** The tracker after the lines of one direction. */
  function AfterLines(pending: Pending, lines: seq<Line>, request: bool): Pending {
    if lines == [] then pending
    else
      var n := |lines| - 1;
      var before := AfterLines(pending, lines[..n], request);
      if request then Track(before, lines[n]) else Forget(before, lines[n])
  }

  /** The work done for the lines of one direction. */
  function AllWork(pending: Pending, lines: seq<Line>, request: bool): seq<Work> {
    if request || lines == [] then []
    else
      var n := |lines| - 1;
      AllWork(pending, lines[..n], request) + WorkFor(AfterLines(pending, lines[..n], request), lines[n])
  }

  /** One direction of the relay, run by itself: every line is inspected and then forwarded, unchanged and in
      order. */
  method Relay(tracker: RequestTracker, input: seq<Line>, request: bool) returns (output: seq<Line>, work: seq<Work>)
    modifies tracker
    ensures output == input
    ensures tracker.pending == AfterLines(old(tracker.pending), input, request)
    ensures work == AllWork(old(tracker.pending), input, request)
  {
    output, work := [], [];
    for i := 0 to |input|
      invariant output == input[..i]
      invariant tracker.pending == AfterLines(old(tracker.pending), input[..i], request)
      invariant work == AllWork(old(tracker.pending), input[..i], request)
    {
      assert input[..i + 1][..i] == input[..i];
      var done := tracker.InspectMessage(input[i], request);
      work := work + done;
      output := output + [input[i]];
    }
    assert input[..|input|] == input;
  }

  // ----- In terms of the messages themselves --------------------------------------------------

  /** A request is a message with a method and an id, and neither result nor error; it is tracked under its id. */
  lemma TracksRequests(pending: Pending, line: Line)
    ensures line.Rpc? && line.msg.verb != "" && line.msg.id.Some? && !line.msg.hasResult && !line.msg.hasError ==>
              Track(pending, line) == pending[line.msg.id.value := line.msg.verb]
    ensures line.Other? || line.msg.verb == "" || line.msg.id.None? || line.msg.hasResult || line.msg.hasError ==>
              Track(pending, line) == pending
  {
  }

  /** An answer is a message with a result or an error; it is taken for its id's request, once, and handed on only
      with a result: tool lists to the pin check, tool calls to the scanner. */
  lemma ResolvesAnswers(pending: Pending, line: Line)
    ensures line.Other? || (!line.msg.hasResult && !line.msg.hasError) ==> WorkFor(pending, line) == [] && Forget(pending, line) == pending
    ensures line.Rpc? && (line.msg.hasResult || line.msg.hasError) ==>
              var id := if line.msg.id.Some? then line.msg.id.value else "";
              && id !in Forget(pending, line)
              && (forall other | other != id :: other in Forget(pending, line) <==> other in pending)
              && (forall other | other in Forget(pending, line) :: Forget(pending, line)[other] == pending[other])
              && (id !in pending ==> WorkFor(pending, line) == [])
              && (id in pending ==>
                    |WorkFor(pending, line)| == 1 && WorkFor(pending, line)[0].id == id && WorkFor(pending, line)[0].verb == pending[id]
                    && (WorkFor(pending, line)[0].task == CheckPins <==> pending[id] == "tools/list" && line.msg.hasResult)
                    && (WorkFor(pending, line)[0].task == ScanResult <==> pending[id] == "tools/call" && line.msg.hasResult))
  {
  }

  // ----- All interleavings ------------------------------------------------------------------

  /** A line the server wrote; `answers` is the position of the request it answers. */
  datatype Reply = Reply(line: Line, answers: Option<nat>)

  datatype System = System(
    requests: seq<Line>,   // written by the client
    seen: nat,             // inspected by the request relay
    toServer: seq<Line>,   // forwarded to the server
    received: nat,         // read by the server
    replies: seq<Reply>,   // written by the server
    repliesSeen: nat,      // inspected by the response relay
    toClient: seq<Line>,   // forwarded to the client
    pending: Pending,
    work: seq<Work>)

  const START: System := System([], 0, [], 0, [], 0, [], map[], [])

  /** Among the first `n` replies, one answers request `i`. */
  predicate Answered(replies: seq<Reply>, n: nat, i: nat)
    requires n <= |replies|
  {
    exists j | 0 <= j < n :: replies[j].answers == Some(i)
  }

  /** A client does not reuse an id before it has received the answer. */
  predicate FreshId(s: System, line: Line)
    requires |s.toClient| <= |s.replies|
  {
    line.Asks() ==>
      forall i | 0 <= i < |s.requests| && s.requests[i].Asks() && s.requests[i].msg.Key() == line.msg.Key() ::
        Answered(s.replies, |s.toClient|, i)
  }

  datatype Step =
    | ClientWrites(line: Line)
    | InspectRequest
    | ForwardRequest
    | ServerReads
    | ServerAnswers(i: nat, line: Line)
    | ServerSays(line: Line)
    | InspectReply
    | ForwardReply

  /** `stray` marks ids the client never uses; the server may send responses with those, and otherwise
      answers only requests it has read, each once. */
  predicate Enabled(stray: string -> bool, s: System, step: Step) {
    && |s.toClient| <= |s.replies|
    && match step
       case ClientWrites(line) => FreshId(s, line) && (line.Asks() ==> !stray(line.msg.Key()))
       case InspectRequest => s.seen == |s.toServer| && s.seen < |s.requests|
       case ForwardRequest => |s.toServer| < s.seen <= |s.requests|
       case ServerReads => s.received < |s.toServer|
       case ServerAnswers(i, line) =>
         && i < s.received && i < |s.requests| && s.requests[i].Asks()
         && !Answered(s.replies, |s.replies|, i)
         && line.Answers() && line.msg.Key() == s.requests[i].msg.Key()
       case ServerSays(line) => line.Answers() ==> stray(line.msg.Key())
       case InspectReply => s.repliesSeen == |s.toClient| && s.repliesSeen < |s.replies|
       case ForwardReply => |s.toClient| < s.repliesSeen <= |s.replies|
  }

  function After(stray: string -> bool, s: System, step: Step): System
    requires Enabled(stray, s, step)
  {
    match step
    case ClientWrites(line) => s.(requests := s.requests + [line])
    case InspectRequest => s.(pending := Track(s.pending, s.requests[s.seen]), seen := s.seen + 1)
    case ForwardRequest => s.(toServer := s.toServer + [s.requests[|s.toServer|]])
    case ServerReads => s.(received := s.received + 1)
    case ServerAnswers(i, line) => s.(replies := s.replies + [Reply(line, Some(i))])
    case ServerSays(line) => s.(replies := s.replies + [Reply(line, None)])
    case InspectReply =>
      var line := s.replies[s.repliesSeen].line;
      s.(work := s.work + WorkFor(s.pending, line),
         pending := Forget(s.pending, line),
         repliesSeen := s.repliesSeen + 1)
    case ForwardReply => s.(toClient := s.toClient + [s.replies[|s.toClient|].line])
  }

  ghost predicate Next(stray: string -> bool, s: System, s': System) {
    exists step :: Enabled(stray, s, step) && s' == After(stray, s, step)
  }

  ghost predicate Behaviour(stray: string -> bool, tr: seq<System>) {
    && tr != [] && tr[0] == START
    && forall i | 0 <= i < |tr| - 1 :: Next(stray, tr[i], tr[i + 1])
  }

  // ----- What every step keeps --------------------------------------------------------------

  function LinesOf(replies: seq<Reply>): seq<Line> {
    seq(|replies|, i requires 0 <= i < |replies| => replies[i].line)
  }

  predicate Counted(s: System) {
    && s.received <= |s.toServer| <= s.seen <= |s.toServer| + 1 && s.seen <= |s.requests|
    && |s.toClient| <= s.repliesSeen <= |s.toClient| + 1 && s.repliesSeen <= |s.replies|
    && s.toServer == s.requests[..|s.toServer|]
    && s.toClient == LinesOf(s.replies)[..|s.toClient|]
  }

  /** Answers belong to requests the server has read, one each; other responses are stray. */
  ghost predicate RepliesValid(stray: string -> bool, s: System) {
    && (forall j | 0 <= j < |s.replies| && s.replies[j].answers.Some? ::
          var i := s.replies[j].answers.value;
          && i < s.received && i < |s.requests| && s.requests[i].Asks()
          && s.replies[j].line.Answers() && s.replies[j].line.msg.Key() == s.requests[i].msg.Key())
    && (forall j, k | 0 <= j < k < |s.replies| && s.replies[j].answers.Some? :: s.replies[j].answers != s.replies[k].answers)
    && (forall j | 0 <= j < |s.replies| && s.replies[j].answers.None? && s.replies[j].line.Answers() ::
          stray(s.replies[j].line.msg.Key()))
    && (forall i | 0 <= i < |s.requests| && s.requests[i].Asks() :: !stray(s.requests[i].msg.Key()))
  }

  /** Of two requests with the same id, the client had the answer to the first before it sent the second. */
  ghost predicate IdsValid(s: System)
    requires Counted(s)
  {
    forall i, k | 0 <= i < k < |s.requests| && s.requests[i].Asks() && s.requests[k].Asks()
                  && s.requests[i].msg.Key() == s.requests[k].msg.Key() ::
      Answered(s.replies, |s.toClient|, i)
  }

  /** Request `i` has been tracked and its answer has not been inspected. */
  predicate Open(s: System, i: nat)
    requires Counted(s)
  {
    i < s.seen && s.requests[i].Asks() && !Answered(s.replies, s.repliesSeen, i)
  }

  /** The tracker holds exactly the open requests, each under its id with its method. */
  ghost predicate PendingValid(s: System)
    requires Counted(s)
  {
    && (forall i | 0 <= i < s.seen && Open(s, i) ::
          s.requests[i].msg.Key() in s.pending && s.pending[s.requests[i].msg.Key()] == s.requests[i].msg.verb)
    && (forall id | id in s.pending :: exists i :: 0 <= i < s.seen && Open(s, i) && s.requests[i].msg.Key() == id)
  }

  /** The work the proxy should have done after inspecting `n` replies: one item for each answer, under
      the method of the request it answers. */
  function Expected(requests: seq<Line>, replies: seq<Reply>, n: nat): seq<Work>
    requires n <= |replies|
    requires forall j | 0 <= j < n && replies[j].answers.Some? ::
               replies[j].answers.value < |requests| && requests[replies[j].answers.value].Rpc? && replies[j].line.Rpc?
  {
    if n == 0 then []
    else
      var r := replies[n - 1];
      var before := Expected(requests, replies, n - 1);
      if r.answers.None? then before
      else
        var verb := requests[r.answers.value].msg.verb;
        before + [Work(r.line.msg.Key(), verb, TaskFor(verb, r.line.msg))]
  }

  lemma {:induction false} ExpectedIsStable(requests: seq<Line>, replies: seq<Reply>, more: seq<Line>, later: seq<Reply>, n: nat)
    requires n <= |replies|
    requires forall j | 0 <= j < n && replies[j].answers.Some? ::
               replies[j].answers.value < |requests| && requests[replies[j].answers.value].Rpc? && replies[j].line.Rpc?
    ensures forall j | 0 <= j < n && (replies + later)[j].answers.Some? ::
              (replies + later)[j].answers.value < |requests + more|
              && (requests + more)[(replies + later)[j].answers.value].Rpc? && (replies + later)[j].line.Rpc?
    ensures Expected(requests + more, replies + later, n) == Expected(requests, replies, n)
  {
    if n > 0 {
      ExpectedIsStable(requests, replies, more, later, n - 1);
      assert (replies + later)[n - 1] == replies[n - 1];
    }
  }

  ghost predicate Valid(stray: string -> bool, s: System) {
    && Counted(s) && RepliesValid(stray, s) && IdsValid(s) && PendingValid(s)
    && s.work == Expected(s.requests, s.replies, s.repliesSeen)
  }

  lemma AnsweredGrows(replies: seq<Reply>, later: seq<Reply>, n: nat, m: nat, i: nat)
    requires n <= m <= |replies + later| && n <= |replies|
    requires Answered(replies, n, i)
    ensures Answered(replies + later, m, i)
  {
    var j :| 0 <= j < n && replies[j].answers == Some(i);
    assert (replies + later)[j] == replies[j];
  }

  lemma AnsweredSame(replies: seq<Reply>, later: seq<Reply>, n: nat, i: nat)
    requires n <= |replies|
    ensures Answered(replies + later, n, i) <==> Answered(replies, n, i)
  {
    if Answered(replies + later, n, i) {
      var j :| 0 <= j < n && (replies + later)[j].answers == Some(i);
      assert replies[j].answers == Some(i);
    }
    if Answered(replies, n, i) {
      AnsweredGrows(replies, later, n, n, i);
    }
  }

  /** What the client has received, the response relay has inspected. */
  lemma DeliveredIsSeen(s: System)
    requires Counted(s)
    ensures forall i | 0 <= i < |s.requests| && Answered(s.replies, |s.toClient|, i) :: Answered(s.replies, s.repliesSeen, i)
  {
    forall i | 0 <= i < |s.requests| && Answered(s.replies, |s.toClient|, i) ensures Answered(s.replies, s.repliesSeen, i) {
      AnsweredGrows(s.replies, [], |s.toClient|, s.repliesSeen, i);
      assert s.replies + [] == s.replies;
    }
  }

  lemma KeptByClient(stray: string -> bool, s: System, line: Line)
    requires Valid(stray, s) && Enabled(stray, s, ClientWrites(line))
    ensures Valid(stray, After(stray, s, ClientWrites(line)))
  {
    hide Answered, Expected;
    var s' := After(stray, s, ClientWrites(line));
    assert forall i | 0 <= i < |s.requests| :: s'.requests[i] == s.requests[i];
    assert Counted(s');
    assert IdsValid(s') by {
      hide RepliesValid, PendingValid, Expected;
    }
    assert PendingValid(s') by {
      hide RepliesValid, IdsValid, Expected;
      SameOpenPending(s, s');
    }
    assert s'.work == Expected(s'.requests, s'.replies, s'.repliesSeen) by {
      ExpectedIsStable(s.requests, s.replies, [line], [], s.repliesSeen);
      assert s.replies + [] == s.replies;
    }
  }

  /** A step that leaves the tracker, the inspected lines and the inspected answers alone keeps the tracker right. */
  lemma SameOpenPending(s: System, s': System)
    requires Counted(s) && Counted(s') && PendingValid(s)
    requires s'.pending == s.pending && s'.seen == s.seen
    requires forall i | 0 <= i < s.seen :: s'.requests[i] == s.requests[i]
    requires forall i | 0 <= i < s.seen :: Answered(s'.replies, s'.repliesSeen, i) == Answered(s.replies, s.repliesSeen, i)
    ensures PendingValid(s')
  {
    hide Answered;
    assert forall i | 0 <= i < s.seen :: Open(s', i) == Open(s, i);
    forall id | id in s'.pending ensures exists i :: 0 <= i < s'.seen && Open(s', i) && s'.requests[i].msg.Key() == id {
      var i :| 0 <= i < s.seen && Open(s, i) && s.requests[i].msg.Key() == id;
      assert Open(s', i);
    }
  }

  lemma KeptByTracking(stray: string -> bool, s: System)
    requires Valid(stray, s) && Enabled(stray, s, InspectRequest)
    ensures Valid(stray, After(stray, s, InspectRequest))
  {
    hide Expected;
    var s' := After(stray, s, InspectRequest);
    var n := s.seen;
    DeliveredIsSeen(s);
    assert !Answered(s.replies, s.repliesSeen, n);
    assert forall i | 0 <= i < n :: Open(s', i) == Open(s, i);
    assert Open(s', n) == s.requests[n].Asks();
    // No open request shares the id of the new one.
    assert s.requests[n].Asks() ==> forall i | 0 <= i < n && Open(s, i) :: s.requests[i].msg.Key() != s.requests[n].msg.Key();
    forall id | id in s'.pending ensures exists i :: 0 <= i < s'.seen && Open(s', i) && s'.requests[i].msg.Key() == id {
      if s.requests[n].Asks() && id == s.requests[n].msg.Key() {
        assert Open(s', n);
      } else {
        var i :| 0 <= i < s.seen && Open(s, i) && s.requests[i].msg.Key() == id;
        assert Open(s', i);
      }
    }
  }

  lemma RepliesAppended(s: System, later: seq<Reply>)
    requires Counted(s)
    ensures Counted(s.(replies := s.replies + later))
    ensures forall i: nat, n: nat | n <= |s.replies| :: Answered(s.replies + later, n, i) == Answered(s.replies, n, i)
  {
    var s' := s.(replies := s.replies + later);
    assert LinesOf(s'.replies)[..|s.toClient|] == LinesOf(s.replies)[..|s.toClient|];
    forall i: nat, n: nat | n <= |s.replies| ensures Answered(s.replies + later, n, i) == Answered(s.replies, n, i) {
      AnsweredSame(s.replies, later, n, i);
    }
  }

  lemma RepliesKept(stray: string -> bool, s: System, step: Step)
    requires step.ServerAnswers? || step.ServerSays?
    requires Counted(s) && RepliesValid(stray, s) && Enabled(stray, s, step)
    ensures RepliesValid(stray, After(stray, s, step))
  {
    var s' := After(stray, s, step);
    assert forall j | 0 <= j < |s.replies| :: s'.replies[j] == s.replies[j];
    if step.ServerAnswers? {
      assert forall j | 0 <= j < |s.replies| :: s.replies[j].answers != Some(step.i);
    }
  }

  lemma KeptByServer(stray: string -> bool, s: System, step: Step)
    requires step.ServerAnswers? || step.ServerSays?
    requires Valid(stray, s) && Enabled(stray, s, step)
    ensures Valid(stray, After(stray, s, step))
  {
    hide Answered;
    var s' := After(stray, s, step);
    var later := if step.ServerAnswers? then [Reply(step.line, Some(step.i))] else [Reply(step.line, None)];
    assert s' == s.(replies := s.replies + later);
    RepliesAppended(s, later);
    RepliesKept(stray, s, step);
    hide RepliesValid;
    assert IdsValid(s') by {
      hide PendingValid;
    }
    hide IdsValid;
    SameOpenPending(s, s');
    assert s'.work == Expected(s'.requests, s'.replies, s'.repliesSeen) by {
      hide Counted, PendingValid;
      ExpectedDefined(stray, s);
      ExpectedIsStable(s.requests, s.replies, [], later, s.repliesSeen);
      assert s.requests + [] == s.requests;
    }
  }

  lemma ExpectedDefined(stray: string -> bool, s: System)
    requires Counted(s) && RepliesValid(stray, s)
    ensures forall j | 0 <= j < s.repliesSeen && s.replies[j].answers.Some? ::
              s.replies[j].answers.value < |s.requests| && s.requests[s.replies[j].answers.value].Rpc? && s.replies[j].line.Rpc?
  {
  }

  /** An inspected answer finds its own request in the tracker. */
  lemma AnswerIsKnown(stray: string -> bool, s: System, j: nat)
    requires Valid(stray, s) && j == s.repliesSeen < |s.replies|
    ensures var r := s.replies[j];
            && (r.answers.Some? ==> Resolve(s.pending, r.line) == Some(s.requests[r.answers.value].msg.verb))
            && (r.answers.None? ==> Resolve(s.pending, r.line) == None)
  {
    var r := s.replies[j];
    if r.answers.Some? {
      var i := r.answers.value;
      assert !Answered(s.replies, j, i);
      assert Open(s, i);
    } else {
      assert forall id | id in s.pending :: !stray(id);
    }
  }

  /** Inspecting an answer closes its own request and no other. */
  lemma ClosesItsRequest(stray: string -> bool, s: System, i: nat)
    requires Valid(stray, s) && Enabled(stray, s, InspectReply) && i < s.seen
    ensures Open(After(stray, s, InspectReply), i) <==> Open(s, i) && s.replies[s.repliesSeen].answers != Some(i)
  {
    hide RepliesValid, IdsValid, PendingValid, Expected, Resolve, Forget;
    var j := s.repliesSeen;
    if Answered(s.replies, j, i) {
      AnsweredGrows(s.replies, [], j, j + 1, i);
      assert s.replies + [] == s.replies;
    }
    assert s.replies[j].answers == Some(i) ==> Answered(s.replies, j + 1, i);
  }

  /** The only open request with the id of an inspected answer is the one it answers. */
  lemma OnlyOneOpen(stray: string -> bool, s: System, j: nat, i: nat)
    requires Valid(stray, s) && j == s.repliesSeen < |s.replies| && Open(s, i)
    requires s.replies[j].line.Answers() && s.requests[i].msg.Key() == s.replies[j].line.msg.Key()
    ensures s.replies[j].answers == Some(i)
  {
    hide IdsValid, PendingValid, Expected;
    var r := s.replies[j];
    assert r.answers.Some?;
    var k := r.answers.value;
    assert !Answered(s.replies, j, k);
    hide Answered;
    if i < k {
      FirstIsSeen(stray, s, i, k);
    } else if k < i {
      FirstIsSeen(stray, s, k, i);
    }
  }

  /** Of two requests with one id, the answer to the first has been inspected. */
  lemma FirstIsSeen(stray: string -> bool, s: System, i: nat, k: nat)
    requires Valid(stray, s) && i < k < |s.requests|
    requires s.requests[i].Asks() && s.requests[k].Asks() && s.requests[i].msg.Key() == s.requests[k].msg.Key()
    ensures Answered(s.replies, s.repliesSeen, i)
  {
    hide Answered;
    DeliveredIsSeen(s);
  }

  lemma PendingAfterReply(stray: string -> bool, s: System)
    requires Valid(stray, s) && Enabled(stray, s, InspectReply)
    ensures PendingValid(After(stray, s, InspectReply))
  {
    hide Answered, RepliesValid, IdsValid, Expected, Open;
    var s' := After(stray, s, InspectReply);
    var j := s.repliesSeen;
    var r := s.replies[j];
    forall i | 0 <= i < s.seen ensures Open(s', i) <==> Open(s, i) && r.answers != Some(i) {
      ClosesItsRequest(stray, s, i);
    }
    forall i | 0 <= i < s.seen && Open(s, i)
      ensures s.requests[i].Asks()
      ensures r.line.Answers() && s.requests[i].msg.Key() == r.line.msg.Key() ==> r.answers == Some(i)
    {
      OpenAsks(s, i);
      if r.line.Answers() && s.requests[i].msg.Key() == r.line.msg.Key() {
        OnlyOneOpen(stray, s, j, i);
      }
    }
    if r.answers.Some? {
      ReplyMatches(stray, s, j);
    }
    forall id | id in s'.pending ensures exists i :: 0 <= i < s'.seen && Open(s', i) && s'.requests[i].msg.Key() == id {
      var i :| 0 <= i < s.seen && Open(s, i) && s.requests[i].msg.Key() == id;
      assert Open(s', i);
    }
  }

  lemma OpenAsks(s: System, i: nat)
    requires Counted(s) && Open(s, i)
    ensures s.requests[i].Asks()
  {
  }

  lemma ReplyMatches(stray: string -> bool, s: System, j: nat)
    requires Valid(stray, s) && j < |s.replies| && s.replies[j].answers.Some?
    ensures var r := s.replies[j];
            && r.answers.value < |s.requests| && s.requests[r.answers.value].Asks() && r.line.Answers()
            && r.line.msg.Key() == s.requests[r.answers.value].msg.Key()
  {
  }

  lemma KeptByResolving(stray: string -> bool, s: System)
    requires Valid(stray, s) && Enabled(stray, s, InspectReply)
    ensures Valid(stray, After(stray, s, InspectReply))
  {
    hide Answered, PendingValid, Open;
    PendingAfterReply(stray, s);
    AnswerIsKnown(stray, s, s.repliesSeen);
  }

  lemma KeptByForwarding(stray: string -> bool, s: System, step: Step)
    requires step.ForwardRequest? || step.ForwardReply? || step.ServerReads?
    requires Valid(stray, s) && Enabled(stray, s, step)
    ensures Valid(stray, After(stray, s, step))
  {
    hide Answered, Expected;
    var s' := After(stray, s, step);
    CountedAfterForwarding(stray, s, step);
    SameOpenPending(s, s');
    hide PendingValid;
    assert IdsValid(s') by {
      hide RepliesValid;
      if step.ForwardReply? {
        DeliveredIsSeen(s);
      }
    }
  }

  lemma CountedAfterForwarding(stray: string -> bool, s: System, step: Step)
    requires step.ForwardRequest? || step.ForwardReply? || step.ServerReads?
    requires Counted(s) && Enabled(stray, s, step)
    ensures Counted(After(stray, s, step))
  {
    if step.ForwardReply? {
      var n := |s.toClient|;
      assert LinesOf(s.replies)[..n + 1] == LinesOf(s.replies)[..n] + [LinesOf(s.replies)[n]];
    }
  }

  lemma ValidKept(stray: string -> bool, s: System, s': System)
    requires Valid(stray, s) && Next(stray, s, s')
    ensures Valid(stray, s')
  {
    hide Valid, Enabled, After;
    var step :| Enabled(stray, s, step) && s' == After(stray, s, step);
    match step
    case ClientWrites(line) => KeptByClient(stray, s, line);
    case InspectRequest => KeptByTracking(stray, s);
    case InspectReply => KeptByResolving(stray, s);
    case ServerAnswers(_, _) => KeptByServer(stray, s, step);
    case ServerSays(_) => KeptByServer(stray, s, step);
    case ForwardRequest => KeptByForwarding(stray, s, step);
    case ForwardReply => KeptByForwarding(stray, s, step);
    case ServerReads => KeptByForwarding(stray, s, step);
  }

  lemma {:induction false} AlwaysValid(stray: string -> bool, tr: seq<System>, i: nat)
    requires Behaviour(stray, tr) && i < |tr|
    ensures Valid(stray, tr[i])
  {
    hide Next;
    if i > 0 {
      AlwaysValid(stray, tr, i - 1);
      assert Next(stray, tr[i - 1], tr[i]);
      ValidKept(stray, tr[i - 1], tr[i]);
    }
  }

  // ----- The guarantees, over every interleaving --------------------------------------------

  /** The work done is exactly one item for each answer inspected so far, in order, under the method of
      the very request it answers: no answer is missed, none is counted twice, none is attributed to
      another request, and stray responses cause none. */
  lemma AnswersAreAttributed(stray: string -> bool, tr: seq<System>, i: nat)
    requires Behaviour(stray, tr) && i < |tr|
    ensures Valid(stray, tr[i]) && tr[i].work == Expected(tr[i].requests, tr[i].replies, tr[i].repliesSeen)
  {
    AlwaysValid(stray, tr, i);
  }

  /** When nothing is in flight the tracker is empty: it never leaks an entry. */
  lemma TrackerDrains(stray: string -> bool, tr: seq<System>, i: nat)
    requires Behaviour(stray, tr) && i < |tr|
    requires Counted(tr[i]) && tr[i].repliesSeen == |tr[i].replies|
    requires forall k | 0 <= k < |tr[i].requests| && tr[i].requests[k].Asks() :: Answered(tr[i].replies, |tr[i].replies|, k)
    ensures tr[i].pending == map[]
  {
    AlwaysValid(stray, tr, i);
    assert forall k | 0 <= k < tr[i].seen :: !Open(tr[i], k);
    assert forall id :: id !in tr[i].pending;
  }

  /** Both streams pass through unchanged: what has been forwarded is a prefix of what was written. */
  lemma StreamsPassThrough(stray: string -> bool, tr: seq<System>, i: nat)
    requires Behaviour(stray, tr) && i < |tr|
    ensures tr[i].toServer <= tr[i].requests && tr[i].toClient <= LinesOf(tr[i].replies)
  {
    AlwaysValid(stray, tr, i);
  }
}
