/** The Codex app-server client: a JSON-RPC 2.0 turn driven by the server's messages. */
module CodexTurn {
  import opened Common

  /** The "id" member of a message: absent, an integer, a boolean or float that Python equates with one, or any other value. */
  datatype Id = NoId | IntId(n: int) | LikeInt(n: int) | OtherId(text: string)

  /** `message.get("id") == initialize_id`; the initialize request has id 1. */
  predicate IsInitialize(id: Id) {
    (id.IntId? || id.LikeInt?) && id.n == 1
  }

  datatype Verb = ToolCall | TurnCompleted | TurnFailed | ErrorNotice | OtherMethod

  /** How a tool call ends: answered, blocked by some exception, or stopped by the crash signal. */
  datatype Handling = Answers | Blocks | Crashes

  /** `ref` is the safe thread or turn id found in the result, if any. */
  datatype Message = Message(id: Id, verb: Verb, hasError: bool, ref: Option<string>, handling: Handling)

  /** What the reader queue yields next. */
  datatype Inbound = Line(message: Message) | Unreadable  // malformed data, end of stream, read failure or timeout

  datatype Kind = Initialize | ThreadStart | TurnStart

  datatype Outbound = Request(id: int, kind: Kind) | Initialized | Reply(to: Id) | ErrorReply(to: Id)

  datatype Terminal = COMPLETED | FAILED | BROKER_BLOCKED
  datatype Status = Running | Ended(terminal: Terminal) | Raised | Crashed

  /** `consumed` lists the client request ids whose response was taken, in order. */
  datatype State = State(
    nextId: int, pending: map<int, Kind>, thread: Option<string>, turn: Option<string>, status: Status,
    sent: seq<Outbound>, consumed: seq<int>)

  const Start := State(2, map[], None, None, Running, [Request(1, Initialize)], [])

  function Ask(s: State, kind: Kind): State {
    s.(nextId := s.nextId + 1, pending := s.pending[s.nextId := kind], sent := s.sent + [Request(s.nextId, kind)])
  }

  /** The client reads this message as a response to one of its own requests. */
  predicate TakenAsResponse(s: State, m: Message) {
    IsInitialize(m.id) || (m.id.IntId? && m.id.n in s.pending)
  }

  /** One round of the message loop. */
  function Step(s: State, input: Inbound): State {
    if input.Unreadable? then s.(status := Raised)
    else
      var m := input.message;
      if IsInitialize(m.id) then
        if m.hasError then s.(status := Raised) else Ask(s.(sent := s.sent + [Initialized]), ThreadStart)
      else if m.id.IntId? && m.id.n in s.pending then
        var kind := s.pending[m.id.n];
        var popped := s.(pending := s.pending - {m.id.n}, consumed := s.consumed + [m.id.n]);
        if m.hasError || m.ref.None? then popped.(status := Raised)
        else if kind == ThreadStart then Ask(popped.(thread := m.ref), TurnStart)
        else popped.(turn := m.ref)
      else if m.verb == ToolCall && m.id != NoId then
        match m.handling
        case Answers => s.(sent := s.sent + [Reply(m.id)])
        case Blocks => s.(sent := s.sent + [ErrorReply(m.id)], status := Ended(BROKER_BLOCKED))
        case Crashes => s.(status := Crashed)
      else if m.verb == TurnCompleted then s.(status := Ended(COMPLETED))
      else if m.verb == TurnFailed || m.verb == ErrorNotice then s.(status := Ended(FAILED))
      else s
  }

  /** The state after the loop has been offered these inputs; it stops at the first that ends it. */
  function After(inputs: seq<Inbound>): State {
    if inputs == [] then Start
    else
      var s := After(inputs[..|inputs| - 1]);
      if s.status.Running? then Step(s, inputs[|inputs| - 1]) else s
  }

  /** `run_turn`'s loop. */
  method RunTurn(inputs: seq<Inbound>) returns (s: State)
    ensures s == After(inputs)
  {
    hide Step;
    s := Start;
    var i := 0;
    while i < |inputs| && s.status.Running?
      invariant 0 <= i <= |inputs|
      invariant s == After(inputs[..i])
    {
      assert inputs[..i + 1][..i] == inputs[..i];
      s := Step(s, inputs[i]);
      i := i + 1;
    }
    StoppedStays(inputs, i);
  }

  lemma {:induction false} StoppedStays(inputs: seq<Inbound>, i: nat)
    requires i <= |inputs| && (i == |inputs| || !After(inputs[..i]).status.Running?)
    ensures After(inputs) == After(inputs[..i])
    decreases |inputs| - i
  {
    hide Step;
    if i == |inputs| {
      assert inputs[..i] == inputs;
    } else {
      assert inputs[..i + 1][..i] == inputs[..i];
      StoppedStays(inputs, i + 1);
    }
  }

  // ---- Request ids ----

  function RequestIds(sent: seq<Outbound>): seq<int> {
    if sent == [] then []
    else
      var last := sent[|sent| - 1];
      RequestIds(sent[..|sent| - 1]) + if last.Request? then [last.id] else []
  }

  function ReplyIds(sent: seq<Outbound>): seq<Id> {
    if sent == [] then []
    else
      var last := sent[|sent| - 1];
      ReplyIds(sent[..|sent| - 1]) + if last.Reply? || last.ErrorReply? then [last.to] else []
  }

  lemma {:induction false} Sending(sent: seq<Outbound>, o: Outbound)
    ensures RequestIds(sent + [o]) == RequestIds(sent) + if o.Request? then [o.id] else []
    ensures ReplyIds(sent + [o]) == ReplyIds(sent) + if o.Reply? || o.ErrorReply? then [o.to] else []
  {
    assert (sent + [o])[..|sent|] == sent;
  }

  /** The request ids sent so far are 1, 2, 3, ... up to the next one. */
  ghost predicate SentInv(s: State) {
    && s.nextId >= 2 && |RequestIds(s.sent)| == s.nextId - 1
    && forall i :: 0 <= i < |RequestIds(s.sent)| ==> RequestIds(s.sent)[i] == i + 1
  }

  /** Pending and consumed requests were sent, and no request is both or consumed twice. */
  ghost predicate PendingInv(s: State) {
    && s.nextId >= 2
    && (forall id :: id in s.pending ==> 2 <= id < s.nextId)
    && (forall i :: 0 <= i < |s.consumed| ==> 2 <= s.consumed[i] < s.nextId && s.consumed[i] !in s.pending)
    && Distinct(s.consumed)
  }

  lemma {:induction false} StepSends(s: State, input: Inbound)
    ensures RequestIds(Step(s, input).sent) == RequestIds(s.sent) + if Step(s, input).nextId == s.nextId then [] else [s.nextId]
    ensures s.nextId <= Step(s, input).nextId <= s.nextId + 1
  {
    hide RequestIds;
    if input.Line? {
      var m := input.message;
      Sending(s.sent, Initialized);
      Sending(s.sent + [Initialized], Request(s.nextId, ThreadStart));
      Sending(s.sent, Request(s.nextId, TurnStart));
      Sending(s.sent, Reply(m.id));
      Sending(s.sent, ErrorReply(m.id));
    }
  }

  lemma StepKeepsPending(s: State, input: Inbound)
    requires PendingInv(s)
    ensures PendingInv(Step(s, input))
  {}

  /**
   Over every inbound sequence: the client's request ids are exactly 1, 2, 3, ... in the order sent,
   and no pending request is ever consumed twice.
   */
  lemma {:induction false} RequestIdsCountUp(inputs: seq<Inbound>)
    ensures SentInv(After(inputs)) && PendingInv(After(inputs))
    decreases |inputs|
  {
    hide Step, RequestIds;
    if inputs == [] {
      Sending([], Request(1, Initialize));
      assert [] + [Request(1, Initialize)] == Start.sent;
      NothingRequested();
    } else {
      hide PendingInv;
      var s, input := After(inputs[..|inputs| - 1]), inputs[|inputs| - 1];
      RequestIdsCountUp(inputs[..|inputs| - 1]);
      StepSends(s, input);
      StepKeepsPending(s, input);
    }
  }

  lemma NothingRequested()
    ensures RequestIds([]) == []
  {}

  // ---- Replies ----

  /** A tool call that carries an id, as opposed to a notification. */
  predicate IsToolRequest(input: Inbound) {
    input.Line? && input.message.verb == ToolCall && input.message.id != NoId
  }

  /** The inputs the loop actually took: it stops after the first one that ends it. */
  function Taken(inputs: seq<Inbound>): seq<Inbound> {
    if inputs == [] then []
    else
      var init := inputs[..|inputs| - 1];
      if After(init).status.Running? then Taken(init) + [inputs[|inputs| - 1]] else Taken(init)
  }

  /** The ids of the tool requests among `taken`, except one that ended in the crash signal. */
  function ToolIds(taken: seq<Inbound>): seq<Id> {
    if taken == [] then []
    else
      var last := taken[|taken| - 1];
      ToolIds(taken[..|taken| - 1]) + if IsToolRequest(last) && !last.message.handling.Crashes? then [last.message.id] else []
  }

  /** Tool requests that would have been answered but reuse id 1 or the id of a client request outstanding when they arrive. */
  function Clashes(inputs: seq<Inbound>): nat {
    if inputs == [] then 0
    else
      var s, last := After(inputs[..|inputs| - 1]), inputs[|inputs| - 1];
      Clashes(inputs[..|inputs| - 1]) +
      if s.status.Running? && IsToolRequest(last) && !last.message.handling.Crashes? && TakenAsResponse(s, last.message) then 1 else 0
  }

  /** One round answers a tool request exactly when the message was not taken as a response and did not crash. */
  lemma {:induction false} StepReplies(s: State, input: Inbound)
    ensures ReplyIds(Step(s, input).sent) == ReplyIds(s.sent) +
            if IsToolRequest(input) && !TakenAsResponse(s, input.message) && !input.message.handling.Crashes? then [input.message.id] else []
  {
    hide ReplyIds;
    if input.Line? {
      var m := input.message;
      Sending(s.sent, Initialized);
      Sending(s.sent + [Initialized], Request(s.nextId, ThreadStart));
      Sending(s.sent, Request(s.nextId, TurnStart));
      Sending(s.sent, Reply(m.id));
      Sending(s.sent, ErrorReply(m.id));
    }
  }

  /** Replies and clashes together account for every tool request the loop took. */
  lemma {:induction false} RepliesAndClashes(inputs: seq<Inbound>)
    ensures |ToolIds(Taken(inputs))| == |ReplyIds(After(inputs).sent)| + Clashes(inputs)
    ensures Clashes(inputs) == 0 ==> ReplyIds(After(inputs).sent) == ToolIds(Taken(inputs))
    decreases |inputs|
  {
    hide Step, TakenAsResponse;
    if inputs == [] {
      Sending([], Request(1, Initialize));
      assert [] + [Request(1, Initialize)] == Start.sent;
    } else {
      var init, last := inputs[..|inputs| - 1], inputs[|inputs| - 1];
      RepliesAndClashes(init);
      if After(init).status.Running? {
        StepReplies(After(init), last);
        assert (Taken(init) + [last])[..|Taken(init)|] == Taken(init);
      }
    }
  }

  /**
   Over every inbound sequence: the tool requests the loop takes are answered exactly once each, in
   order, if and only if none of them clashes with an id of the client's; one whose handler raises
   the crash signal is never answered.
   */
  lemma {:induction false} ToolCallsAnsweredExactly(inputs: seq<Inbound>)
    ensures ReplyIds(After(inputs).sent) == ToolIds(Taken(inputs)) <==> Clashes(inputs) == 0
  {
    hide After, Taken, ReplyIds, ToolIds, Clashes;
    RepliesAndClashes(inputs);
  }

  /** Server request ids that are no numbers never clash. */
  lemma {:induction false} TextIdsNeverClash(inputs: seq<Inbound>)
    requires forall i :: 0 <= i < |inputs| && IsToolRequest(inputs[i]) ==> inputs[i].message.id.OtherId?
    ensures Clashes(inputs) == 0
    decreases |inputs|
  {
    if inputs != [] {
      TextIdsNeverClash(inputs[..|inputs| - 1]);
    }
  }

  /** A tool request whose id clashes is never answered: it is consumed as a response instead. */
  lemma {:induction false} ClashingToolCallUnanswered(s: State, m: Message)
    requires m.verb == ToolCall && m.id != NoId && !m.handling.Crashes?
    ensures ReplyIds(Step(s, Line(m)).sent) == ReplyIds(s.sent) <==> TakenAsResponse(s, m)
    ensures TakenAsResponse(s, m) && m.id.n == 1 && !m.hasError ==>
              Step(s, Line(m)).sent == s.sent + [Initialized, Request(s.nextId, ThreadStart)]
  {
    StepReplies(s, Line(m));
  }

  /** An error reply is the last thing the client sends, and it ends the turn as BROKER_BLOCKED. */
  lemma {:induction false} ErrorReplyIsLast(inputs: seq<Inbound>, i: nat)
    requires i < |After(inputs).sent| && After(inputs).sent[i].ErrorReply?
    ensures i == |After(inputs).sent| - 1 && After(inputs).status == Ended(BROKER_BLOCKED)
    decreases |inputs|
  {
    if inputs != [] {
      var init := inputs[..|inputs| - 1];
      var s := After(init);
      if i < |s.sent| {
        SendingOnlyAppends(s, inputs[|inputs| - 1]);
        assert s.sent[i].ErrorReply?;
        ErrorReplyIsLast(init, i);
      }
    }
  }

  lemma SendingOnlyAppends(s: State, input: Inbound)
    ensures s.sent <= Step(s, input).sent
  {}

  // ---- How a turn ends ----

  /** A request of this kind is on the wire and its response was not taken yet. */
  ghost predicate Awaited(s: State, n: int, kind: Kind) {
    n >= 2 && n !in s.consumed && Request(n, kind) in s.sent
  }

  /** The table of pending requests is what sent and consumed messages say. */
  ghost predicate TableInv(s: State) {
    && PendingInv(s)
    && (forall n, kind :: Request(n, kind) in s.sent ==> n < s.nextId && (kind == Initialize <==> n == 1))
    && (forall n, kind :: Awaited(s, n, kind) <==> n in s.pending && s.pending[n] == kind)
  }

  lemma {:induction false} AskKeepsTable(s: State, kind: Kind)
    requires TableInv(s) && kind != Initialize
    ensures TableInv(Ask(s, kind))
  {
    var t := Ask(s, kind);
    forall n, k
      ensures Awaited(t, n, k) <==> n in t.pending && t.pending[n] == k
    {
      assert Request(n, k) in t.sent <==> Request(n, k) in s.sent || (n == s.nextId && k == kind);
      assert Awaited(s, n, k) <==> n in s.pending && s.pending[n] == k;
    }
  }

  lemma {:induction false} PopKeepsTable(s: State, n: int, kind: Kind)
    requires TableInv(s) && n in s.pending && s.pending[n] == kind
    ensures TableInv(s.(pending := s.pending - {n}, consumed := s.consumed + [n]))
  {
    var t := s.(pending := s.pending - {n}, consumed := s.consumed + [n]);
    assert Awaited(s, n, kind);
    forall m, k
      ensures Awaited(t, m, k) <==> m in t.pending && t.pending[m] == k
    {
      assert Awaited(s, m, k) <==> m in s.pending && s.pending[m] == k;
    }
  }

  lemma {:induction false} SendKeepsTable(s: State, o: Outbound)
    requires TableInv(s) && !o.Request?
    ensures TableInv(s.(sent := s.sent + [o]))
  {
    var t := s.(sent := s.sent + [o]);
    assert forall n, k :: Request(n, k) in t.sent <==> Request(n, k) in s.sent;
    forall m, k
      ensures Awaited(t, m, k) <==> m in t.pending && t.pending[m] == k
    {
      assert Awaited(s, m, k) <==> m in s.pending && s.pending[m] == k;
    }
  }

  lemma StatusKeepsTable(s: State, status: Status, thread: Option<string>, turn: Option<string>)
    requires TableInv(s)
    ensures TableInv(s.(status := status, thread := thread, turn := turn))
  {
    var t := s.(status := status, thread := thread, turn := turn);
    forall m, k
      ensures Awaited(t, m, k) <==> m in t.pending && t.pending[m] == k
    {
      assert Awaited(s, m, k) <==> m in s.pending && s.pending[m] == k;
    }
  }

  lemma {:induction false} StepKeepsTable(s: State, input: Inbound)
    requires TableInv(s)
    ensures TableInv(Step(s, input))
  {
    hide TableInv;
    StatusKeepsTable(s, Step(s, input).status, s.thread, s.turn);
    if input.Line? {
      var m := input.message;
      if IsInitialize(m.id) {
        SendKeepsTable(s, Initialized);
        AskKeepsTable(s.(sent := s.sent + [Initialized]), ThreadStart);
      } else if m.id.IntId? && m.id.n in s.pending {
        var popped := s.(pending := s.pending - {m.id.n}, consumed := s.consumed + [m.id.n]);
        PopKeepsTable(s, m.id.n, s.pending[m.id.n]);
        StatusKeepsTable(popped, Raised, s.thread, s.turn);
        StatusKeepsTable(popped, s.status, m.ref, s.turn);
        StatusKeepsTable(popped, s.status, s.thread, m.ref);
        AskKeepsTable(popped.(thread := m.ref), TurnStart);
      } else if IsToolRequest(input) {
        SendKeepsTable(s, Reply(m.id));
        SendKeepsTable(s, ErrorReply(m.id));
        StatusKeepsTable(s.(sent := s.sent + [ErrorReply(m.id)]), Ended(BROKER_BLOCKED), s.thread, s.turn);
      }
    }
  }

  lemma {:induction false} TableHolds(inputs: seq<Inbound>)
    ensures TableInv(After(inputs))
  {
    if inputs == [] {
      assert forall n, k :: !Awaited(Start, n, k);
    } else {
      hide TableInv, Step;
      TableHolds(inputs[..|inputs| - 1]);
      StepKeepsTable(After(inputs[..|inputs| - 1]), inputs[|inputs| - 1]);
    }
  }

  /** The client takes the message for a response to this kind of request. */
  ghost predicate RespondsTo(s: State, m: Message, kind: Kind) {
    if m.id == IntId(1) || m.id == LikeInt(1) then kind == Initialize else m.id.IntId? && Awaited(s, m.id.n, kind)
  }

  ghost predicate IsResponse(s: State, m: Message) {
    exists kind :: RespondsTo(s, m, kind)
  }

  /** What an input that the running loop takes does to the turn: None lets it go on. */
  ghost predicate EndsAs(s: State, input: Inbound, status: Status) {
    match status
    case Running => false
    case Raised =>
      input.Unreadable? || exists kind :: RespondsTo(s, input.message, kind) && (input.message.hasError || (kind != Initialize && input.message.ref.None?))
    case Crashed => IsToolRequest(input) && !IsResponse(s, input.message) && input.message.handling.Crashes?
    case Ended(BROKER_BLOCKED) => IsToolRequest(input) && !IsResponse(s, input.message) && input.message.handling.Blocks?
    case Ended(COMPLETED) => input.Line? && input.message.verb == TurnCompleted && !IsResponse(s, input.message)
    case Ended(FAILED) => input.Line? && input.message.verb in {TurnFailed, ErrorNotice} && !IsResponse(s, input.message)
  }

  lemma {:induction false} ResponseExactly(s: State, m: Message)
    requires TableInv(s)
    ensures IsResponse(s, m) <==> TakenAsResponse(s, m)
    ensures forall kind :: RespondsTo(s, m, kind) <==>
              if IsInitialize(m.id) then kind == Initialize else m.id.IntId? && m.id.n in s.pending && s.pending[m.id.n] == kind
  {
    forall kind
      ensures RespondsTo(s, m, kind) <==>
              if IsInitialize(m.id) then kind == Initialize else m.id.IntId? && m.id.n in s.pending && s.pending[m.id.n] == kind
    {
      if m.id.IntId? { assert Awaited(s, m.id.n, kind) <==> m.id.n in s.pending && s.pending[m.id.n] == kind; }
    }
    if IsInitialize(m.id) {
      assert RespondsTo(s, m, Initialize);
    } else if TakenAsResponse(s, m) {
      assert RespondsTo(s, m, s.pending[m.id.n]);
    }
  }

  lemma {:induction false} StepEnds(s: State, input: Inbound, status: Status)
    requires TableInv(s) && s.status.Running? && !status.Running?
    ensures Step(s, input).status == status <==> EndsAs(s, input, status)
  {
    if input.Line? {
      ResponseExactly(s, input.message);
      hide TableInv, RespondsTo, IsResponse;
    }
  }

  /** The loop still runs in front of input `i`, and that input ends it so. */
  ghost predicate EndsAt(inputs: seq<Inbound>, i: nat, status: Status)
    requires i < |inputs|
  {
    After(inputs[..i]).status.Running? && EndsAs(After(inputs[..i]), inputs[i], status)
  }

  lemma EndsInPrefix(inputs: seq<Inbound>, i: nat, status: Status)
    requires i < |inputs| - 1
    ensures EndsAt(inputs[..|inputs| - 1], i, status) <==> EndsAt(inputs, i, status)
  {
    assert inputs[..|inputs| - 1][..i] == inputs[..i];
  }

  /** What the last input does to a loop that still runs. */
  lemma {:induction false} LastEnds(inputs: seq<Inbound>, status: Status)
    requires inputs != [] && !status.Running?
    ensures var before := After(inputs[..|inputs| - 1]);
            After(inputs).status == status <==> if before.status.Running? then EndsAt(inputs, |inputs| - 1, status) else before.status == status
  {
    var init := inputs[..|inputs| - 1];
    TableHolds(init);
    if After(init).status.Running? { StepEnds(After(init), inputs[|inputs| - 1], status); }
    hide TableInv, Step, EndsAs;
  }

  /**
   Over every inbound sequence the turn ends exactly in the way of the first input that ends it, and
   runs on as long as there is none.
   */
  lemma {:induction false} TurnEndsExactly(inputs: seq<Inbound>, status: Status)
    requires !status.Running?
    ensures After(inputs).status == status <==> exists i :: 0 <= i < |inputs| && EndsAt(inputs, i, status)
    decreases |inputs|
  {
    if inputs != [] {
      var init := inputs[..|inputs| - 1];
      TurnEndsExactly(init, status);
      LastEnds(inputs, status);
      forall i | 0 <= i < |init|
        ensures EndsAt(init, i, status) <==> EndsAt(inputs, i, status)
      {
        EndsInPrefix(inputs, i, status);
      }
      assert EndsAt(inputs, |init|, status) ==> After(init).status.Running?;
      hide After, EndsAt;
    }
  }

  /** The turn runs on exactly as long as no input ends it. */
  lemma {:induction false} TurnRunsExactly(inputs: seq<Inbound>)
    ensures After(inputs).status.Running? <==> forall i, status: Status :: 0 <= i < |inputs| && !status.Running? ==> !EndsAt(inputs, i, status)
  {
    forall status: Status | !status.Running?
      ensures After(inputs).status == status <==> exists i :: 0 <= i < |inputs| && EndsAt(inputs, i, status)
    {
      TurnEndsExactly(inputs, status);
    }
    hide After, EndsAt;
  }

  /** What the running loop sends on one input, and which thread and turn it then knows. */
  lemma {:induction false} StepSendsExactly(s: State, input: Inbound)
    requires TableInv(s) && s.status.Running?
    ensures var t := Step(s, input);
            if t.status.Running? && RespondsTo(s, input.message, Initialize) then
              t.sent == s.sent + [Initialized, Request(s.nextId, ThreadStart)] && t.thread == s.thread && t.turn == s.turn
            else if t.status.Running? && RespondsTo(s, input.message, ThreadStart) then
              t.sent == s.sent + [Request(s.nextId, TurnStart)] && t.thread == input.message.ref && t.turn == s.turn
            else if t.status.Running? && RespondsTo(s, input.message, TurnStart) then
              t.sent == s.sent && t.thread == s.thread && t.turn == input.message.ref
            else
              && t.thread == s.thread && t.turn == s.turn
              && t.sent == s.sent + if EndsAs(s, input, Ended(BROKER_BLOCKED)) then [ErrorReply(input.message.id)]
                                    else if t.status.Running? && IsToolRequest(input) then [Reply(input.message.id)] else []
  {
    if input.Line? {
      ResponseExactly(s, input.message);
      assert TableInv(s) ==> forall n :: n in s.pending ==> s.pending[n] != Initialize by {
        forall n | n in s.pending
          ensures s.pending[n] != Initialize
        {
          assert Awaited(s, n, s.pending[n]);
        }
      }
      hide TableInv, RespondsTo, IsResponse;
    }
  }
}
