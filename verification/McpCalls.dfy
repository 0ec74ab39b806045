/**
 The Full MCP call pipeline: replay guard, effect journal, dispatch, event log and create-once results.

 A step is one durable write, one dispatch, or one change of the in-memory guard; `Restart` may
 follow any step, so the runs contain a crash at every point of every call.
 */
module McpCalls {
  import opened Common

  /** The closed taxonomy of error codes; nothing else is ever logged or sealed. */
  datatype Code =
    | AUTHENTICATION_FAILED | AUTHORIZATION_DENIED | INPUT_SCHEMA_INVALID | WORKSPACE_VIOLATION | PATH_POLICY_VIOLATION | SYMLINK_VIOLATION
    | SENSITIVE_PATH_BLOCKED | COMMAND_NOT_ALLOWED | PROCESS_SPAWN_FAILED | PROCESS_TIMEOUT | PROCESS_CANCELLED | NONZERO_EXIT
    | OUTPUT_LIMIT_EXCEEDED | SECRET_OUTPUT_BLOCKED | GIT_BOUNDARY_VIOLATION | GIT_INDEX_NOT_CLEAN | GIT_HEAD_DRIFT | GIT_WORKTREE_DRIFT
    | GIT_CANDIDATE_DRIFT | GIT_INDEX_DRIFT | GIT_BRANCH_MISMATCH | GIT_REMOTE_STALE | GIT_NON_FAST_FORWARD | GIT_PUSH_REJECTED
    | GIT_REMOTE_HEAD_UNAVAILABLE | ACTION_SIDE_EFFECT_AMBIGUOUS | PATCH_CONFLICT | VALIDATION_FAILED | EFFECT_REPLAY_BLOCKED
    | RECOVERY_AMBIGUOUS | PERSISTENCE_FAILED | INTERNAL_ERROR

  datatype Status = COMPLETED | BLOCKED | FAILED

  /** The codes that stop a call for a policy reason. */
  function StatusFor(code: Code): Status {
    if code in {
         AUTHENTICATION_FAILED, AUTHORIZATION_DENIED, INPUT_SCHEMA_INVALID, WORKSPACE_VIOLATION, PATH_POLICY_VIOLATION, SYMLINK_VIOLATION,
         SENSITIVE_PATH_BLOCKED, COMMAND_NOT_ALLOWED, GIT_BOUNDARY_VIOLATION, GIT_INDEX_NOT_CLEAN, GIT_HEAD_DRIFT, GIT_WORKTREE_DRIFT,
         GIT_CANDIDATE_DRIFT, GIT_INDEX_DRIFT, GIT_BRANCH_MISMATCH, GIT_REMOTE_STALE, GIT_NON_FAST_FORWARD, GIT_PUSH_REJECTED,
         GIT_REMOTE_HEAD_UNAVAILABLE, EFFECT_REPLAY_BLOCKED, RECOVERY_AMBIGUOUS
       } then BLOCKED
    else FAILED
  }

  /** What went wrong while the service ran or was recorded is a failure; every other code blocks, and none completes. */
  predicate RunTime(code: Code) {
    match code
    case PROCESS_SPAWN_FAILED => true
    case PROCESS_TIMEOUT => true
    case PROCESS_CANCELLED => true
    case NONZERO_EXIT => true
    case OUTPUT_LIMIT_EXCEEDED => true
    case SECRET_OUTPUT_BLOCKED => true
    case ACTION_SIDE_EFFECT_AMBIGUOUS => true
    case PATCH_CONFLICT => true
    case VALIDATION_FAILED => true
    case PERSISTENCE_FAILED => true
    case INTERNAL_ERROR => true
    case _ => false
  }

  /** The terminal outcome of a call before it is recorded. */
  datatype Ending = Ending(id: string, op: string, error: Option<Code>) {
    function Status(): Status {
      if error.None? then COMPLETED else StatusFor(error.value)
    }
  }

  datatype Event = Event(ending: Ending, sequence: nat)

  /** A result file: a sealed record, or a file whose writing was cut short. */
  datatype Slot = Sealed(ending: Ending, sequence: nat) | Torn

  /** The fields of an effect identity that come from the invocation context and the operation's contract. */
  datatype Binding = Binding(
    task: string, project: string, gate: string, lv: string, plan: string, requirement: string, package: string, scope: string)

  /** A runtime instance's context: the binding of every operation it has a contract for. */
  type Context = map<string, Binding>

  /** What an intent file is named after: operation, request id and binding, as an ideal digest. */
  datatype Effect = Effect(op: string, id: string, binding: Binding)

  /** How the event log ends: with a newline, with a whole record that lost its newline, or unreadable. */
  datatype Log = Ended | Unended | Malformed

  datatype Phase =
    | Idle
    | Consumed(op: string, id: string)
    | Begun(op: string, id: string)
    | Ran(op: string, id: string)
    | Finishing(ending: Ending)
    | Logged(ending: Ending, sequence: nat)

  /**
   `context` is that of the running instance; `dispatches` counts every dispatch ever made by operation
   and request id, `effects` the state-changing ones by identity, `here` those of the running instance.
   */
  datatype State = State(
    context: Context, seen: set<string>, intents: set<Effect>, receipts: set<Effect>, events: seq<Event>, log: Log,
    results: map<string, Slot>, phase: Phase, dispatches: multiset<(string, string)>, effects: multiset<Effect>, here: multiset<string>) {

    /** The identity of the open call's effect. */
    ghost function Open(): Effect
      requires (phase.Consumed? || phase.Begun? || phase.Ran?) && phase.op in context
    {
      Effect(phase.op, phase.id, context[phase.op])
    }
  }

  /** Which operations change state, and which contexts instances over this run directory are started with. */
  datatype Setting = Setting(effectful: set<string>, contexts: set<Context>)

  datatype Step =
    | Consume(op: string, id: string)  // replay guard, after the status check
    | BeginEffect                      // create-once effect intent
    | Dispatch
    | CompleteEffect                   // create-once effect receipt
    | Finish(ending: Ending)           // the pipeline stops, normally or with an error
    | AppendEvent
    | TearLog                          // the event append is cut short inside the record
    | LoseNewline                      // the event append is cut short between the record and its newline
    | Seal                             // create-once result
    | TearSeal                         // the result write is cut short
    | GiveUp                           // recording failed; the caller is told so
    | Restart(context: Context)        // a new instance over the same files, after a crash or not

  /** Before the first instance: an empty run directory. */
  const Initial := State(map[], {}, {}, {}, [], Ended, map[], Idle, multiset{}, multiset{}, multiset{})

  /** The max-scan of `append_event`. */
  function LastSequence(events: seq<Event>, id: string): nat {
    if events == [] then 0
    else
      var earlier, e := LastSequence(events[..|events| - 1], id), events[|events| - 1];
      if e.ending.id == id && e.sequence > earlier then e.sequence else earlier
  }

  /** The log after one more whole line: behind a lost newline the two records share a line that no reader accepts. */
  function Appended(log: Log): Log {
    if log.Unended? then Malformed else log
  }

  ghost predicate Enabled(s: State, step: Step, w: Setting) {
    match step
    case Consume(op, id) => s.phase.Idle? && op in s.context && id !in s.results && id !in s.seen
    case BeginEffect => s.phase.Consumed? && s.phase.op in w.effectful && s.phase.op in s.context && s.Open() !in s.intents
    case Dispatch => s.phase.Begun? || (s.phase.Consumed? && s.phase.op !in w.effectful)
    case CompleteEffect => s.phase.Ran? && s.phase.op in w.effectful && s.phase.op in s.context && s.Open() !in s.receipts
    case Finish(ending) => !s.phase.Finishing? && !s.phase.Logged? && (!s.phase.Idle? ==> ending.id == s.phase.id)
    case AppendEvent => s.phase.Finishing? && !s.log.Malformed?
    case TearLog => s.phase.Finishing? && !s.log.Malformed?
    case LoseNewline => s.phase.Finishing? && !s.log.Malformed?
    case Seal => s.phase.Logged? && s.phase.ending.id !in s.results
    case TearSeal => s.phase.Logged? && s.phase.ending.id !in s.results
    case GiveUp => s.phase.Finishing? || s.phase.Logged?
    case Restart(context) => context in w.contexts
  }

  ghost function Apply(s: State, step: Step, w: Setting): State
    requires Enabled(s, step, w)
  {
    match step
    case Consume(op, id) => s.(seen := s.seen + {id}, phase := Consumed(op, id))
    case BeginEffect => s.(intents := s.intents + {s.Open()}, phase := Begun(s.phase.op, s.phase.id))
    case Dispatch => s.(dispatches := s.dispatches + multiset{(s.phase.op, s.phase.id)}, here := s.here + multiset{s.phase.id},
                        effects := s.effects + if s.phase.Begun? && s.phase.op in s.context then multiset{s.Open()} else multiset{},
                        phase := Ran(s.phase.op, s.phase.id))
    case CompleteEffect => s.(receipts := s.receipts + {s.Open()})
    case Finish(ending) => s.(phase := Finishing(ending))
    case AppendEvent =>
      var n := LastSequence(s.events, s.phase.ending.id) + 1;
      s.(events := s.events + [Event(s.phase.ending, n)], log := Appended(s.log), phase := Logged(s.phase.ending, n))
    case TearLog => s.(log := Malformed)
    case LoseNewline =>
      var n := LastSequence(s.events, s.phase.ending.id) + 1;
      s.(events := s.events + [Event(s.phase.ending, n)], log := if s.log.Ended? then Unended else Malformed)
    case Seal => s.(results := s.results[s.phase.ending.id := Sealed(s.phase.ending, s.phase.sequence)], phase := Idle)
    case TearSeal => s.(results := s.results[s.phase.ending.id := Torn])
    case GiveUp => s.(phase := Idle)
    case Restart(context) => s.(context := context, seen := {}, here := multiset{}, phase := Idle)
  }

  ghost predicate Legal(run: seq<Step>, w: Setting)
    decreases |run|, 0
  {
    run == [] || (Legal(run[..|run| - 1], w) && Enabled(Exec(run[..|run| - 1], w), run[|run| - 1], w))
  }

  ghost function Exec(run: seq<Step>, w: Setting): State
    requires Legal(run, w)
    decreases |run|, 1
  {
    if run == [] then Initial else Apply(Exec(run[..|run| - 1], w), run[|run| - 1], w)
  }

  lemma {:induction false} Extend(run: seq<Step>, step: Step, w: Setting)
    requires Legal(run, w) && Enabled(Exec(run, w), step, w)
    ensures Legal(run + [step], w) && Exec(run + [step], w) == Apply(Exec(run, w), step, w)
  {
    hide Enabled, Apply;
    assert (run + [step])[..|run + [step]| - 1] == run;
  }

  // ---- Invariants ----

  predicate InFlight(p: Phase) {
    p.Consumed? || p.Begun?
  }

  ghost predicate GuardInv(s: State, w: Setting) {
    && (s.context == map[] || s.context in w.contexts)
    && (forall id :: s.here[id] <= 1)
    && (forall id :: s.here[id] == 1 ==> id in s.seen)
    && (InFlight(s.phase) ==> s.phase.id in s.seen && s.here[s.phase.id] == 0 && s.phase.id !in s.results)
    && (InFlight(s.phase) || s.phase.Ran? ==> s.phase.op in s.context)
    && (s.phase.Begun? ==> s.phase.op in w.effectful)
  }

  /** Every identity has at most one dispatch, and only behind its intent. */
  ghost predicate EffectInv(s: State, w: Setting) {
    && (forall e :: s.effects[e] <= 1)
    && (forall e :: s.effects[e] == 1 ==> e in s.intents)
    && (s.phase.Begun? && s.phase.op in s.context ==> s.Open() in s.intents && s.effects[s.Open()] == 0)
    && s.receipts <= s.intents
    && (s.phase.Ran? && s.phase.op in w.effectful && s.phase.op in s.context ==> s.Open() in s.intents)
  }

  /** Every context that has a contract for `op` gives it the same binding. */
  ghost predicate SameBinding(contexts: set<Context>, op: string) {
    forall c, d :: c in contexts && d in contexts && op in c && op in d ==> c[op] == d[op]
  }

  /** With one binding for all instances, the dispatches of a state change are those of one identity. */
  ghost predicate CountInv(s: State, w: Setting, op: string, id: string, binding: Binding) {
    s.dispatches[(op, id)] == s.effects[Effect(op, id, binding)]
  }

  /** The sequence numbers of one request id, in log order. */
  function Sequences(events: seq<Event>, id: string): seq<nat> {
    if events == [] then []
    else Sequences(events[..|events| - 1], id) + if events[|events| - 1].ending.id == id then [events[|events| - 1].sequence] else []
  }

  ghost predicate CountsUp(s: seq<nat>) {
    forall i :: 0 <= i < |s| ==> s[i] == i + 1
  }

  lemma {:induction false} LastIsCount(events: seq<Event>, id: string)
    requires CountsUp(Sequences(events, id))
    ensures LastSequence(events, id) == |Sequences(events, id)|
  {
    if events != [] {
      var init := events[..|events| - 1];
      assert forall i :: 0 <= i < |Sequences(init, id)| ==> Sequences(init, id)[i] == Sequences(events, id)[i];
      LastIsCount(init, id);
      if events[|events| - 1].ending.id == id {
        assert Sequences(events, id)[|Sequences(init, id)|] == events[|events| - 1].sequence;
      }
    }
  }

  lemma {:induction false} StepKeepsGuard(s: State, step: Step, w: Setting)
    requires GuardInv(s, w) && Enabled(s, step, w)
    ensures GuardInv(Apply(s, step, w), w)
  {
    hide LastSequence;
    var t := Apply(s, step, w);
    forall id
      ensures t.here[id] <= 1 && (t.here[id] == 1 ==> id in t.seen)
    {
      assert s.here[id] <= 1 && (s.here[id] == 1 ==> id in s.seen);
    }
  }

  lemma {:induction false} StepKeepsEffects(s: State, step: Step, w: Setting)
    requires GuardInv(s, w) && EffectInv(s, w) && Enabled(s, step, w)
    ensures EffectInv(Apply(s, step, w), w)
  {
    hide LastSequence;
  }

  lemma {:induction false} StepKeepsCount(s: State, step: Step, w: Setting, op: string, id: string, binding: Binding)
    requires GuardInv(s, w) && Enabled(s, step, w) && CountInv(s, w, op, id, binding)
    requires op in w.effectful && forall c :: c in w.contexts && op in c ==> c[op] == binding
    ensures CountInv(Apply(s, step, w), w, op, id, binding)
  {
    hide LastSequence;
  }

  lemma {:induction false} StepKeepsSequences(s: State, step: Step, w: Setting, id: string)
    requires CountsUp(Sequences(s.events, id)) && Enabled(s, step, w)
    ensures CountsUp(Sequences(Apply(s, step, w).events, id))
  {
    if step.AppendEvent? || step.LoseNewline? {
      LastIsCount(s.events, id);
      var t := Apply(s, step, w);
      assert t.events[..|t.events| - 1] == s.events;
    }
  }

  lemma {:induction false} Reachable(run: seq<Step>, w: Setting)
    requires Legal(run, w)
    ensures GuardInv(Exec(run, w), w) && EffectInv(Exec(run, w), w)
    decreases |run|
  {
    hide Enabled, Apply, GuardInv, EffectInv;
    if run == [] {
      InitialHolds(w);
    } else {
      var before := run[..|run| - 1];
      Reachable(before, w);
      StepKeepsGuard(Exec(before, w), run[|run| - 1], w);
      StepKeepsEffects(Exec(before, w), run[|run| - 1], w);
    }
  }

  lemma InitialHolds(w: Setting)
    ensures GuardInv(Initial, w) && EffectInv(Initial, w)
  {}

  lemma {:induction false} CountsAgree(run: seq<Step>, w: Setting, op: string, id: string, binding: Binding)
    requires Legal(run, w) && op in w.effectful && forall c :: c in w.contexts && op in c ==> c[op] == binding
    ensures CountInv(Exec(run, w), w, op, id, binding)
    decreases |run|
  {
    hide Enabled, Apply, GuardInv, EffectInv;
    if run != [] {
      var before := run[..|run| - 1];
      CountsAgree(before, w, op, id, binding);
      Reachable(before, w);
      StepKeepsCount(Exec(before, w), run[|run| - 1], w, op, id, binding);
    }
  }

  /** One runtime instance dispatches each operation request id at most once. */
  lemma {:induction false} OncePerInstance(run: seq<Step>, w: Setting, id: string)
    requires Legal(run, w)
    ensures Exec(run, w).here[id] <= 1
  {
    hide Enabled, Apply, EffectInv;
    Reachable(run, w);
  }

  /** Across every restart, crash and change of context, each effect identity is dispatched at most once. */
  lemma {:induction false} EffectOnceEver(run: seq<Step>, w: Setting, e: Effect)
    requires Legal(run, w)
    ensures Exec(run, w).effects[e] <= 1
    ensures Exec(run, w).effects[e] == 1 ==> e in Exec(run, w).intents
  {
    hide Enabled, Apply, GuardInv;
    Reachable(run, w);
  }

  /** The events of each request id are numbered exactly 1, 2, ..., n in log order. */
  lemma {:induction false} EventsCountUp(run: seq<Step>, w: Setting, id: string)
    requires Legal(run, w)
    ensures CountsUp(Sequences(Exec(run, w).events, id))
    decreases |run|
  {
    hide Enabled, Apply;
    if run != [] {
      EventsCountUp(run[..|run| - 1], w, id);
      StepKeepsSequences(Exec(run[..|run| - 1], w), run[|run| - 1], w, id);
    }
  }

  /**
   Once a result file exists for a request id it never changes, and the id is never dispatched again,
   in any continuation of the run, restarts under other contexts included.
   */
  lemma {:induction false} SealedForGood(run: seq<Step>, more: seq<Step>, w: Setting, id: string)
    requires Legal(run, w) && Legal(run + more, w) && id in Exec(run, w).results
    ensures id in Exec(run + more, w).results
    ensures Exec(run + more, w).results[id] == Exec(run, w).results[id]
    ensures forall op :: Exec(run + more, w).dispatches[(op, id)] == Exec(run, w).dispatches[(op, id)]
    decreases |more|
  {
    hide Enabled, Apply, GuardInv;
    if more == [] {
      assert run + more == run;
    } else {
      var shorter := run + more[..|more| - 1];
      assert (run + more)[..|run + more| - 1] == shorter;
      assert (run + more)[|run + more| - 1] == more[|more| - 1];
      SealedForGood(run, more[..|more| - 1], w, id);
      Reachable(shorter, w);
      SealedStep(Exec(shorter, w), more[|more| - 1], w, id);
    }
  }

  lemma {:induction false} SealedStep(s: State, step: Step, w: Setting, id: string)
    requires GuardInv(s, w) && Enabled(s, step, w) && id in s.results
    ensures id in Apply(s, step, w).results && Apply(s, step, w).results[id] == s.results[id]
    ensures forall op :: Apply(s, step, w).dispatches[(op, id)] == s.dispatches[(op, id)]
  {
    hide LastSequence;
  }

  // ---- When a request is dispatched once over all restarts ----

  lemma {:induction false} NeverContracted(run: seq<Step>, w: Setting, op: string, id: string)
    requires Legal(run, w) && forall c :: c in w.contexts ==> op !in c
    ensures Exec(run, w).dispatches[(op, id)] == 0
    decreases |run|
  {
    hide LastSequence, EffectInv;
    if run != [] {
      NeverContracted(run[..|run| - 1], w, op, id);
      Reachable(run[..|run| - 1], w);
    }
  }

  /** One instance started with `context` gets as far as the dispatch of a request that was never sealed, and dies. */
  lemma {:induction false} DispatchAndDie(run: seq<Step>, w: Setting, context: Context, op: string, id: string) returns (run': seq<Step>)
    requires Legal(run, w) && context in w.contexts && op in context && id !in Exec(run, w).results
    requires op in w.effectful ==> Effect(op, id, context[op]) !in Exec(run, w).intents
    ensures Legal(run', w) && id !in Exec(run', w).results
    ensures Exec(run', w).dispatches == Exec(run, w).dispatches + multiset{(op, id)}
    ensures Exec(run', w).intents == Exec(run, w).intents + if op in w.effectful then {Effect(op, id, context[op])} else {}
  {
    hide LastSequence, Legal, Exec;
    Extend(run, Restart(context), w);
    run' := run + [Restart(context)];
    Extend(run', Consume(op, id), w);
    run' := run' + [Consume(op, id)];
    if op in w.effectful {
      Extend(run', BeginEffect, w);
      run' := run' + [BeginEffect];
    }
    Extend(run', Dispatch, w);
    run' := run' + [Dispatch];
  }

  /**
   A request id is dispatched at most once over all restarts if and only if the operation changes
   state and every instance binds it to the same identity (or no instance has a contract for it).
   Otherwise the request is dispatched again by an instance started after a crash between dispatch
   and seal: a read-only operation leaves no intent, and another identity has an intent of its own.
   */
  lemma {:induction false} OnceEverExactly(w: Setting, op: string, id: string)
    ensures (forall run :: Legal(run, w) ==> Exec(run, w).dispatches[(op, id)] <= 1) <==>
            (op in w.effectful && SameBinding(w.contexts, op)) || forall c :: c in w.contexts ==> op !in c
  {
    hide Legal, Exec, CountInv;
    if forall c :: c in w.contexts ==> op !in c {
      forall run | Legal(run, w)
        ensures Exec(run, w).dispatches[(op, id)] <= 1
      {
        NeverContracted(run, w, op, id);
      }
    } else {
      var c :| c in w.contexts && op in c;
      if op in w.effectful && SameBinding(w.contexts, op) {
        forall run | Legal(run, w)
          ensures Exec(run, w).dispatches[(op, id)] <= 1
        {
          SameBindingOnce(run, w, op, id, c[op]);
        }
      } else {
        var d := c;
        if op in w.effectful {
          var c', d' :| c' in w.contexts && d' in w.contexts && op in c' && op in d' && c'[op] != d'[op];
          c, d := c', d';
        }
        DispatchedTwice(w, c, d, op, id);
      }
    }
  }

  lemma {:induction false} SameBindingOnce(run: seq<Step>, w: Setting, op: string, id: string, binding: Binding)
    requires Legal(run, w) && op in w.effectful && forall c :: c in w.contexts && op in c ==> c[op] == binding
    ensures Exec(run, w).dispatches[(op, id)] <= 1
  {
    hide Legal, Exec;
    CountsAgree(run, w, op, id, binding);
    EffectOnceEver(run, w, Effect(op, id, binding));
  }

  /** The failing runs: two instances, the first dying before the seal. */
  lemma {:induction false} DispatchedTwice(w: Setting, c: Context, d: Context, op: string, id: string)
    requires c in w.contexts && d in w.contexts && op in c && op in d
    requires op in w.effectful ==> c[op] != d[op]
    ensures exists run :: Legal(run, w) && Exec(run, w).dispatches[(op, id)] == 2
  {
    var none: seq<Step> := [];
    assert Legal(none, w) && Exec(none, w) == Initial;
    hide Legal, Exec;
    var once := DispatchAndDie(none, w, c, op, id);
    var twice := DispatchAndDie(once, w, d, op, id);
    assert Exec(twice, w).dispatches[(op, id)] == 2;
  }
}
