/** The Full MCP runtime object: `call` performs a legal run of the steps in `McpCalls`. */
module McpRuntime {
  import opened Common
  import opened McpCalls

  /**
   A request as the pipeline meets it: which checks it passes, and what the foreign services answer.
   `id` is None when the metadata cannot be read; `preflight` and `failure` are the errors raised
   by the policy preflight and by the dispatched service; the last three say how recording goes.
   */
  datatype Request = Request(
    id: Option<string>, bound: bool, op: string, registered: bool, argumentsOk: bool, authorized: bool,
    preflight: Option<Code>, failure: Option<Code>, namesSafe: bool, eventWritable: bool, resultWrite: ResultWrite)

  /** How creating the result file goes: complete, cut short after the file appeared, or not at all. */
  datatype ResultWrite = Written | CutShort | NotCreated

  datatype Response = Response(id: string, op: string, status: Status, error: Option<Code>)

  class FullMCPRuntime {
    const effectful: set<string>        // state-changing operations of the registry
    const context: Context              // bindings of the operations this instance has a contract for
    ghost const contexts: set<Context>  // contexts of all instances over this run directory
    var seen: set<string>               // replay guard, in memory
    var intents: set<Effect>            // effect journal
    var receipts: set<Effect>
    var events: seq<Event>              // event log
    var log: Log
    var results: map<string, Slot>      // result files
    ghost var run: seq<Step>            // every step since the run directory was created
    ghost var state: State              // the state that run leads to

    ghost function World(): Setting {
      Setting(effectful, contexts)
    }

    ghost predicate Recorded()
      reads this`run, this`state
    {
      Legal(run, World()) && Exec(run, World()) == state
    }

    /** The fields are those of the recorded state, which stands in `phase`. */
    ghost predicate At(phase: Phase)
      reads this
    {
      && Recorded() && state.phase == phase && state.context == context
      && state.seen == seen && state.intents == intents && state.receipts == receipts && state.events == events
      && state.log == log && state.results == results
    }

    /** A new runtime instance, under any of the contexts, over the durable state an earlier run left. */
    constructor (effectful: set<string>, context: Context, ghost contexts: set<Context>, ghost history: seq<Step>, intents: set<Effect>,
                 receipts: set<Effect>, events: seq<Event>, log: Log, results: map<string, Slot>)
      requires context in contexts && Legal(history, Setting(effectful, contexts))
      requires var s := Exec(history, Setting(effectful, contexts));
               s.intents == intents && s.receipts == receipts && s.events == events && s.log == log && s.results == results
      ensures this.effectful == effectful && this.context == context && this.contexts == contexts
      ensures At(Idle) && run == history + [Restart(context)] && seen == {}
    {
      this.effectful, this.context, this.contexts := effectful, context, contexts;
      this.seen, this.intents, this.receipts := {}, intents, receipts;
      this.events, this.log, this.results := events, log, results;
      this.run := history + [Restart(context)];
      Extend(history, Restart(context), Setting(effectful, contexts));
      this.state := Exec(history + [Restart(context)], Setting(effectful, contexts));
    }

    lemma {:induction false} ReceiptsFollowIntents()
      requires Recorded()
      ensures state.receipts <= state.intents
    {
      Reachable(run, World());
    }

    ghost method Take(step: Step)
      requires Recorded() && Enabled(state, step, World())
      modifies this`run, this`state
      ensures Recorded() && run == old(run) + [step] && state == Apply(old(state), step, World())
    {
      hide Enabled, Apply;
      Extend(run, step, World());
      run := run + [step];
      state := Apply(state, step, World());
    }

    /** `append_event`: the next sequence number is one more than the largest recorded for this id. */
    method NextSequence(id: string) returns (n: nat)
      ensures n == LastSequence(events, id) + 1
    {
      var last, i := 0, 0;
      while i < |events|
        invariant 0 <= i <= |events|
        invariant last == LastSequence(events[..i], id)
      {
        assert events[..i + 1][..i] == events[..i];
        if events[i].ending.id == id && events[i].sequence > last { last := events[i].sequence; }
        i := i + 1;
      }
      assert events[..i] == events;
      n := last + 1;
    }

    /** `append_event` on a readable log. */
    method LogEvent(ending: Ending) returns (n: nat)
      requires At(Finishing(ending)) && !log.Malformed?
      modifies this`events, this`log, this`run, this`state
      ensures At(Logged(ending, n)) && old(run) <= run && state.dispatches == old(state.dispatches)
      ensures n == LastSequence(old(events), ending.id) + 1 && events == old(events) + [Event(ending, n)] && log == Appended(old(log))
    {
      hide Legal, Exec, Recorded, LastSequence;
      n := NextSequence(ending.id);
      events, log := events + [Event(ending, n)], Appended(log);
      Take(AppendEvent);
    }

    /** The create-once part of `_finish`, behind the appended event. */
    method SealResult(ending: Ending, n: nat, resultWrite: ResultWrite) returns (sealed: bool)
      requires At(Logged(ending, n))
      modifies this`results, this`run, this`state
      ensures At(Idle) && old(run) <= run && state.dispatches == old(state.dispatches)
      ensures sealed == (old(ending.id !in results) && resultWrite.Written?)
      ensures results == old(ResultsAfter(ending, true, resultWrite, results, n))
    {
      hide Legal, Exec, Recorded;
      sealed := ending.id !in results && resultWrite.Written?;
      if sealed {
        results := results[ending.id := Sealed(ending, n)];
        Take(Seal);
      } else {
        if ending.id !in results && resultWrite.CutShort? {
          results := results[ending.id := Torn];
          Take(TearSeal);
        }
        Take(GiveUp);
      }
    }

    /** `_finish`: append the event, then seal the result unless this is a blocked replay of a sealed one. */
    method FinishCall(ending: Ending, namesSafe: bool, eventWritable: bool, resultWrite: ResultWrite) returns (r: Response)
      requires At(Finishing(ending))
      modifies this`events, this`log, this`results, this`run, this`state
      ensures At(Idle) && old(run) <= run && state.dispatches == old(state.dispatches)
      ensures log == if namesSafe && eventWritable then Appended(old(log)) else old(log)
      ensures r == old(FinishResponse(ending, namesSafe && eventWritable && !log.Malformed?, resultWrite, results))
      ensures events == old(events) + if namesSafe && eventWritable && !old(log).Malformed? then [Event(ending, LastSequence(old(events), ending.id) + 1)] else []
      ensures results == old(ResultsAfter(ending, namesSafe && eventWritable && !log.Malformed?, resultWrite, results, LastSequence(events, ending.id) + 1))
    {
      hide Legal, Exec, Recorded, LastSequence;
      var lost := Response(ending.id, ending.op, FAILED, Some(PERSISTENCE_FAILED));
      if !namesSafe || !eventWritable || log.Malformed? {
        Take(GiveUp);
        return lost;
      }
      var n := LogEvent(ending);
      var replay := ending.id in results && results[ending.id].Sealed? && ending.error == Some(EFFECT_REPLAY_BLOCKED);
      var sealed := SealResult(ending, n, resultWrite);
      return if replay || sealed then Response(ending.id, ending.op, ending.Status(), ending.error) else lost;
    }

    /** Dispatch the service and, for a completed state change, write the receipt. */
    method RunService(q: Request, id: string)
      requires q.op in context && At(if q.op in effectful then Begun(q.op, id) else Consumed(q.op, id))
      requires Effect(q.op, id, context[q.op]) !in receipts || q.op !in effectful
      modifies this`receipts, this`run, this`state
      ensures At(Ran(q.op, id)) && old(run) <= run && state.dispatches == old(state.dispatches) + multiset{(q.op, id)}
      ensures receipts == old(receipts) + if q.op in effectful && q.failure.None? then {Effect(q.op, id, context[q.op])} else {}
    {
      hide Legal, Exec, Recorded;
      Take(Dispatch);
      if q.op in effectful && q.failure.None? {
        receipts := receipts + {Effect(q.op, id, context[q.op])};
        Take(CompleteEffect);
      }
    }

    /** `begin`: the create-once intent of an identity that has none. */
    method Intend(q: Request, id: string)
      requires q.op in context && q.op in effectful && At(Consumed(q.op, id)) && Effect(q.op, id, context[q.op]) !in intents
      modifies this`intents, this`run, this`state
      ensures At(Begun(q.op, id)) && old(run) <= run && state.dispatches == old(state.dispatches)
      ensures intents == old(intents) + {Effect(q.op, id, context[q.op])}
    {
      hide Legal, Exec, Recorded;
      intents := intents + {Effect(q.op, id, context[q.op])};
      Take(BeginEffect);
    }

    ghost method TakeFinish(ending: Ending)
      requires state.phase.Idle? || state.phase.Consumed? || state.phase.Ran?
      requires At(state.phase) && (!state.phase.Idle? ==> ending.id == state.phase.id)
      modifies this`run, this`state
      ensures At(Finishing(ending)) && old(run) <= run && state.dispatches == old(state.dispatches)
    {
      hide Legal, Exec, Recorded;
      Take(Finish(ending));
    }

    /** The part of `call` behind the replay guard: preflight, intent, dispatch, receipt. */
    method RunConsumed(q: Request, id: string) returns (ending: Ending)
      requires q.op in context && At(Consumed(q.op, id)) && receipts <= intents
      modifies this`intents, this`receipts, this`run, this`state
      ensures At(Finishing(ending)) && old(run) <= run && ending == Ending(id, q.op, old(Outcome(q, id, context, effectful, intents)))
      ensures intents == old(intents) +
              if old(Reached(q, id, context, effectful, intents)) && q.op in effectful then {Effect(q.op, id, context[q.op])} else {}
      ensures state.dispatches == old(state.dispatches) +
              if old(Reached(q, id, context, effectful, intents)) then multiset{(q.op, id)} else multiset{}
    {
      hide Legal, Exec, Recorded, LastSequence;
      var error := q.failure;
      if q.op in effectful {
        var effect := Effect(q.op, id, context[q.op]);
        if q.preflight.Some? {
          error := q.preflight;
        } else if effect in intents {
          error := Some(EFFECT_REPLAY_BLOCKED);
        } else {
          Intend(q, id);
          RunService(q, id);
        }
      } else {
        RunService(q, id);
      }
      ending := Ending(id, q.op, error);
      TakeFinish(ending);
    }

    /** The checks of `call` in front of the replay guard and the guard itself, in their order. */
    method Admit(q: Request) returns (refusal: Option<Code>)
      ensures refusal.None? <==> && q.id.Some? && q.bound && q.registered && q.argumentsOk && q.op in context && q.authorized
                                 && q.id.value !in results && q.id.value !in seen
      ensures refusal == Refusal(q, context, seen, results)
    {
      if q.id.None? { return Some(AUTHORIZATION_DENIED); }
      if !q.bound { return Some(AUTHORIZATION_DENIED); }
      if !q.registered { return Some(INPUT_SCHEMA_INVALID); }
      if !q.argumentsOk { return Some(INPUT_SCHEMA_INVALID); }
      if q.op !in context { return Some(AUTHORIZATION_DENIED); }
      if !q.authorized { return Some(AUTHORIZATION_DENIED); }
      if q.id.value in results {
        if results[q.id.value].Torn? { return Some(PERSISTENCE_FAILED); }
        return Some(EFFECT_REPLAY_BLOCKED);
      }
      if q.id.value in seen { return Some(AUTHORIZATION_DENIED); }
      return None;
    }

    /** `call` up to `_finish`: refused, or consumed and run. */
    method Attempt(q: Request) returns (ending: Ending)
      requires At(Idle)
      modifies this`seen, this`intents, this`receipts, this`run, this`state
      ensures At(Finishing(ending)) && old(run) <= run && ending == old(EndingOf(q, context, effectful, seen, intents, results))
      ensures seen == old(seen) + if old(Refusal(q, context, seen, results)).None? then {q.id.value} else {}
      ensures intents == old(intents) +
              if old(WillDispatch(q, context, effectful, seen, intents, results)) && q.op in effectful
              then {Effect(q.op, q.id.value, context[q.op])} else {}
      ensures state.dispatches == old(state.dispatches) +
              if old(WillDispatch(q, context, effectful, seen, intents, results)) then multiset{(q.op, q.id.value)} else multiset{}
    {
      hide Legal, Exec, Recorded, LastSequence, Outcome, Reached;
      var id := if q.id.Some? then q.id.value else "invalid-request";
      var refusal := Admit(q);
      if refusal.Some? {
        ending := Ending(id, q.op, refusal);
        TakeFinish(ending);
      } else {
        ReceiptsFollowIntents();
        seen := seen + {id};
        Take(Consume(q.op, id));
        ending := RunConsumed(q, id);
      }
    }

    /**
     `call`: every path ends in `_finish`. The service is dispatched exactly when all checks pass, the
     id has neither a result nor a place in the guard, and a state-changing operation wins its intent.
     */
    method Call(q: Request) returns (r: Response)
      requires At(Idle)
      modifies this`seen, this`intents, this`receipts, this`events, this`log, this`results, this`run, this`state
      ensures At(Idle) && old(run) <= run && log == if q.namesSafe && q.eventWritable then Appended(old(log)) else old(log)
      ensures r == old(FinishResponse(EndingOf(q, context, effectful, seen, intents, results), q.namesSafe && q.eventWritable && !log.Malformed?, q.resultWrite, results))
      ensures seen == old(seen) + if old(Refusal(q, context, seen, results)).None? then {q.id.value} else {}
      ensures intents == old(intents) +
              if old(WillDispatch(q, context, effectful, seen, intents, results)) && q.op in effectful
              then {Effect(q.op, q.id.value, context[q.op])} else {}
      ensures state.dispatches == old(state.dispatches) +
              if old(WillDispatch(q, context, effectful, seen, intents, results)) then multiset{(q.op, q.id.value)} else multiset{}
      ensures var e, logged := old(EndingOf(q, context, effectful, seen, intents, results)), q.namesSafe && q.eventWritable && !old(log).Malformed?;
              && events == old(events) + (if logged then [Event(e, LastSequence(old(events), e.id) + 1)] else [])
              && results == ResultsAfter(e, logged, q.resultWrite, old(results), LastSequence(old(events), e.id) + 1)
    {
      hide Legal, Exec, Recorded, LastSequence, EndingOf, FinishResponse, ResultsAfter;
      var ending := Attempt(q);
      r := FinishCall(ending, q.namesSafe, q.eventWritable, q.resultWrite);
    }
  }

  /** The result files after `_finish`: only a missing file is ever created, and nothing is overwritten. */
  function ResultsAfter(ending: Ending, logged: bool, resultWrite: ResultWrite, results: map<string, Slot>, sequence: nat): map<string, Slot> {
    if !logged || ending.id in results || resultWrite.NotCreated? then results
    else results[ending.id := if resultWrite.Written? then Sealed(ending, sequence) else Torn]
  }

  /** The error raised before the replay guard lets the request through. */
  function Refusal(q: Request, context: Context, seen: set<string>, results: map<string, Slot>): (refusal: Option<Code>)
    ensures refusal.None? ==> q.id.Some? && q.op in context && q.id.value !in results && q.id.value !in seen
  {
    if q.id.None? || !q.bound then Some(AUTHORIZATION_DENIED)
    else if !q.registered || !q.argumentsOk then Some(INPUT_SCHEMA_INVALID)
    else if q.op !in context || !q.authorized then Some(AUTHORIZATION_DENIED)
    else if q.id.value in results then Some(if results[q.id.value].Sealed? then EFFECT_REPLAY_BLOCKED else PERSISTENCE_FAILED)
    else if q.id.value in seen then Some(AUTHORIZATION_DENIED)
    else None
  }

  /** Behind the guard, the service is reached: a state change needs its preflight and a free identity. */
  predicate Reached(q: Request, id: string, context: Context, effectful: set<string>, intents: set<Effect>)
    requires q.op in context
  {
    q.op in effectful ==> q.preflight.None? && Effect(q.op, id, context[q.op]) !in intents
  }

  /** The error raised behind the guard, None on completion. */
  function Outcome(q: Request, id: string, context: Context, effectful: set<string>, intents: set<Effect>): Option<Code>
    requires q.op in context
  {
    if Reached(q, id, context, effectful, intents) then q.failure
    else if q.preflight.Some? then q.preflight
    else Some(EFFECT_REPLAY_BLOCKED)
  }

  predicate WillDispatch(q: Request, context: Context, effectful: set<string>, seen: set<string>, intents: set<Effect>, results: map<string, Slot>) {
    Refusal(q, context, seen, results).None? && Reached(q, q.id.value, context, effectful, intents)
  }

  function EndingOf(q: Request, context: Context, effectful: set<string>, seen: set<string>, intents: set<Effect>, results: map<string, Slot>): Ending {
    var id := if q.id.Some? then q.id.value else "invalid-request";
    var refusal := Refusal(q, context, seen, results);
    Ending(id, q.op, if refusal.Some? then refusal else Outcome(q, id, context, effectful, intents))
  }

  /** What the caller is told: the ending, or PERSISTENCE_FAILED when it could not be recorded. */
  function FinishResponse(ending: Ending, logged: bool, resultWrite: ResultWrite, results: map<string, Slot>): Response {
    if logged && (if ending.id in results then results[ending.id].Sealed? && ending.error == Some(EFFECT_REPLAY_BLOCKED) else resultWrite.Written?)
    then Response(ending.id, ending.op, ending.Status(), ending.error)
    else Response(ending.id, ending.op, FAILED, Some(PERSISTENCE_FAILED))
  }

  /** The request may go in front of its service: readable, bound, known, well-formed, contracted and authorized. */
  predicate InOrder(q: Request, context: Context) {
    q.id.Some? && q.bound && q.registered && q.argumentsOk && q.op in context && q.authorized
  }

  /** The answer of a call for every request: each status, and each error the pipeline itself raises, as an iff. */
  lemma {:induction false} AnswerExactly(q: Request, context: Context, effectful: set<string>, seen: set<string>, intents: set<Effect>,
                      results: map<string, Slot>, logged: bool)
    ensures var r := FinishResponse(EndingOf(q, context, effectful, seen, intents, results), logged, q.resultWrite, results);
            && r.op == q.op && r.id == (if q.id.Some? then q.id.value else "invalid-request")
            && (r.status == COMPLETED <==>
                  && InOrder(q, context) && q.id.value !in results && q.id.value !in seen
                  && (q.op in effectful ==> q.preflight.None? && Effect(q.op, q.id.value, context[q.op]) !in intents)
                  && q.failure.None? && logged && q.resultWrite.Written?)
            && (r.status == COMPLETED <==> r.error.None?)
            && (r.status == FAILED <==> r.error.Some? && RunTime(r.error.value))
            && (!logged ==> r.error == Some(PERSISTENCE_FAILED))
            && (logged && r.id in results ==>
                  r.error == if InOrder(q, context) && results[r.id].Sealed? then Some(EFFECT_REPLAY_BLOCKED)
                             else Some(PERSISTENCE_FAILED))
            && (logged && r.id !in results && q.resultWrite.Written? ==>
                  if q.id.None? || !q.bound then r.error == Some(AUTHORIZATION_DENIED)
                  else if !q.registered || !q.argumentsOk then r.error == Some(INPUT_SCHEMA_INVALID)
                  else if !InOrder(q, context) || q.id.value in seen then r.error == Some(AUTHORIZATION_DENIED)
                  else if q.op in effectful && q.preflight.Some? then r.error == q.preflight
                  else if q.op in effectful && Effect(q.op, q.id.value, context[q.op]) in intents then r.error == Some(EFFECT_REPLAY_BLOCKED)
                  else r.error == q.failure)
  {
  }
}
