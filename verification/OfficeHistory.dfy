/** Which sequences of effective events a coordinator run can have, and what its loading snapshots say about them. */
module OfficeHistory {
  import opened Common
  import opened Text
  import opened OfficeContracts
  import opened OfficeStore
  import opened OfficeWorkflow

  // ---- The event words of the workflow ----

  const Opening: seq<Event> := [REQUIREMENT_ACCEPTED, CONTEXT_ASSEMBLED, FULL_PLAN_HANDOFF_REFERENCED]

  /** State-change authority was missing `k` times and was then granted. */
  function Waits(k: nat): seq<Event> {
    if k == 0 then [] else Waits(k - 1) + [STATE_CHANGE_UNAVAILABLE, STATE_CHANGE_AUTHORITY_READY]
  }

  /** The plan is coordinated, governance is ready, and execution may start. */
  function Pending(k: nat): seq<Event> {
    Opening + [GOVERNANCE_READY] + Waits(k)
  }

  function Executed(k: nat, recovered: bool): seq<Event> {
    Pending(k) + [EXECUTION_ACCEPTED] + if recovered then [RECOVERY_REQUIRED, RECOVERY_REVIEWED] else [RESULT_REFS_COMPLETE]
  }

  /** The words that end in each state; the other states are never reached. */
  ghost predicate LeadsTo(events: seq<Event>, s: WorkflowState) {
    match s
    case NEW => events == []
    case INTAKE_READY => events == Opening[..1]
    case CONTEXT_READY => events == Opening[..2]
    case PLAN_COORDINATED => events == Opening
    case WAITING_APPROVAL => events == Opening + [APPROVAL_REQUIRED]
    case EXECUTION_PENDING => exists k: nat :: events == Pending(k)
    case WAITING_STATE_CHANGE_AUTHORITY => exists k: nat :: events == Pending(k) + [STATE_CHANGE_UNAVAILABLE]
    case EXECUTION_IN_PROGRESS => exists k: nat :: events == Pending(k) + [EXECUTION_ACCEPTED]
    case RECOVERY_COORDINATION => exists k: nat :: events == Pending(k) + [EXECUTION_ACCEPTED] + [RECOVERY_REQUIRED]
    case REVIEW_PENDING => exists k: nat, recovered :: events == Executed(k, recovered)
    case COMPLETE => exists k: nat, recovered :: events == Executed(k, recovered) + [GATE_GO_REFERENCED]
    case _ => false
  }

  /** The transition table applied event by event from NEW; None once an event is not declared. */
  function Walk(events: seq<Event>): Option<WorkflowState> {
    if events == [] then Some(NEW)
    else
      match Walk(events[..|events| - 1])
      case None => None
      case Some(s) => NextState(s, events[|events| - 1])
  }

  lemma {:induction false} WalkAppend(events: seq<Event>, e: Event)
    ensures Walk(events + [e]) == match Walk(events) case None => None case Some(s) => NextState(s, e)
  {
    hide NextState;
    assert (events + [e])[..|events|] == events;
  }

  lemma {:induction false} LeadsOn(events: seq<Event>, s: WorkflowState, e: Event)
    requires LeadsTo(events, s) && NextState(s, e).Some?
    ensures LeadsTo(events + [e], NextState(s, e).value)
  {
    if s == PLAN_COORDINATED && e == GOVERNANCE_READY {
      assert Waits(0) == [];
      assert events + [e] == Pending(0);
    } else if s == WAITING_STATE_CHANGE_AUTHORITY {
      var k: nat :| events == Pending(k) + [STATE_CHANGE_UNAVAILABLE];
      assert Waits(k + 1) == Waits(k) + [STATE_CHANGE_UNAVAILABLE, STATE_CHANGE_AUTHORITY_READY];
      assert events + [e] == Pending(k + 1);
    } else if s == EXECUTION_IN_PROGRESS {
      var k: nat :| events == Pending(k) + [EXECUTION_ACCEPTED];
      if e == RESULT_REFS_COMPLETE {
        assert events + [e] == Executed(k, false);
      }
    } else if s == RECOVERY_COORDINATION {
      var k: nat :| events == Pending(k) + [EXECUTION_ACCEPTED] + [RECOVERY_REQUIRED];
      assert events + [e] == Executed(k, true);
    }
  }

  lemma WalkNothing()
    ensures Walk([]) == Some(NEW)
  {}

  lemma {:induction false} WalkOpening()
    ensures Walk([]) == Some(NEW) && Walk(Opening[..1]) == Some(INTAKE_READY) && Walk(Opening[..2]) == Some(CONTEXT_READY)
    ensures Walk(Opening) == Some(PLAN_COORDINATED)
  {
    hide Walk;
    WalkNothing();
    WalkAppend([], REQUIREMENT_ACCEPTED);
    WalkAppend(Opening[..1], CONTEXT_ASSEMBLED);
    WalkAppend(Opening[..2], FULL_PLAN_HANDOFF_REFERENCED);
    assert Opening[..1] == [] + [REQUIREMENT_ACCEPTED] && Opening[..2] == Opening[..1] + [CONTEXT_ASSEMBLED];
    assert Opening == Opening[..2] + [FULL_PLAN_HANDOFF_REFERENCED];
  }

  lemma {:induction false} WalkPending(k: nat)
    ensures Walk(Pending(k)) == Some(EXECUTION_PENDING)
  {
    hide Walk;
    if k == 0 {
      WalkOpening();
      WalkAppend(Opening, GOVERNANCE_READY);
      assert Pending(0) == Opening + [GOVERNANCE_READY];
    } else {
      WalkPending(k - 1);
      WalkAppend(Pending(k - 1), STATE_CHANGE_UNAVAILABLE);
      WalkAppend(Pending(k - 1) + [STATE_CHANGE_UNAVAILABLE], STATE_CHANGE_AUTHORITY_READY);
      assert Pending(k) == Pending(k - 1) + [STATE_CHANGE_UNAVAILABLE] + [STATE_CHANGE_AUTHORITY_READY];
    }
  }

  lemma {:induction false} WalkExecuted(k: nat, recovered: bool)
    ensures Walk(Pending(k) + [EXECUTION_ACCEPTED]) == Some(EXECUTION_IN_PROGRESS)
    ensures Walk(Pending(k) + [EXECUTION_ACCEPTED] + [RECOVERY_REQUIRED]) == Some(RECOVERY_COORDINATION)
    ensures Walk(Executed(k, recovered)) == Some(REVIEW_PENDING)
  {
    hide Pending, Walk;
    WalkPending(k);
    var started := Pending(k) + [EXECUTION_ACCEPTED];
    WalkAppend(Pending(k), EXECUTION_ACCEPTED);
    WalkAppend(started, RECOVERY_REQUIRED);
    WalkAppend(started + [RECOVERY_REQUIRED], RECOVERY_REVIEWED);
    WalkAppend(started, RESULT_REFS_COMPLETE);
    assert started + [RECOVERY_REQUIRED] + [RECOVERY_REVIEWED] == started + [RECOVERY_REQUIRED, RECOVERY_REVIEWED];
  }

  lemma {:induction false} WordWalks(events: seq<Event>, s: WorkflowState)
    requires LeadsTo(events, s)
    ensures Walk(events) == Some(s)
  {
    hide Walk, Pending, Executed;
    WalkOpening();
    match s
    case WAITING_APPROVAL => WalkAppend(Opening, APPROVAL_REQUIRED);
    case EXECUTION_PENDING =>
      var k: nat :| events == Pending(k);
      WalkPending(k);
    case WAITING_STATE_CHANGE_AUTHORITY =>
      var k: nat :| events == Pending(k) + [STATE_CHANGE_UNAVAILABLE];
      WalkPending(k);
      WalkAppend(Pending(k), STATE_CHANGE_UNAVAILABLE);
    case EXECUTION_IN_PROGRESS =>
      var k: nat :| events == Pending(k) + [EXECUTION_ACCEPTED];
      WalkExecuted(k, true);
    case RECOVERY_COORDINATION =>
      var k: nat :| events == Pending(k) + [EXECUTION_ACCEPTED] + [RECOVERY_REQUIRED];
      WalkExecuted(k, true);
    case REVIEW_PENDING =>
      var k: nat, recovered :| events == Executed(k, recovered);
      WalkExecuted(k, recovered);
    case COMPLETE =>
      var k: nat, recovered :| events == Executed(k, recovered) + [GATE_GO_REFERENCED];
      WalkExecuted(k, recovered);
      WalkAppend(Executed(k, recovered), GATE_GO_REFERENCED);
    case _ =>
  }

  /** The transition table and the words describe the same language, state by state. */
  lemma {:induction false} TableExactly(events: seq<Event>, s: WorkflowState)
    ensures Walk(events) == Some(s) <==> LeadsTo(events, s)
  {
    hide LeadsTo, NextState;
    if LeadsTo(events, s) { WordWalks(events, s); }
    if Walk(events) == Some(s) { WalkLeads(events); }
  }

  lemma {:induction false} WalkLeads(events: seq<Event>)
    requires Walk(events).Some?
    ensures LeadsTo(events, Walk(events).value)
  {
    if events != [] {
      hide LeadsTo, NextState;
      var init, last := events[..|events| - 1], events[|events| - 1];
      WalkLeads(init);
      LeadsOn(init, Walk(init).value, last);
      assert events == init + [last];
    }
  }

  // ---- Runs ----

  /** The events of the first `j` calls that took effect, in order. */
  ghost function Effects(id: Identity, disks: seq<Disk>, calls: seq<Call>, j: nat): seq<Event>
    requires |disks| == |calls| + 1 && j <= |calls|
  {
    if j == 0 then [] else Effects(id, disks, calls, j - 1) + if TookEffect(id, disks, j - 1) then [calls[j - 1].event] else []
  }

  /**
   The history of a run can be read off any snapshot it loads: the effective events form one of the
   words that lead to its state, and the revision counts them.
   */
  lemma {:induction false} HistoryLeadsToState(id: Identity, plan: string, baseline: string, disks: seq<Disk>, calls: seq<Call>, j: nat)
    requires Run(id, plan, baseline, disks, calls) && j < |disks| && Load(id, disks[j]).Some?
    ensures var s := Load(id, disks[j]).value;
            LeadsTo(Effects(id, disks, calls, j), s.state) && s.revision == |Effects(id, disks, calls, j)|
    decreases j
  {
    hide Load, NextState, RefsFor, CallStep, Planned, AfterLastWrite, SealedIn;
    FirstSnapshot(id, plan, baseline, disks, calls);
    if j > 0 {
      CallOutcome(id, disks[j - 1], calls[j - 1], disks[j]);
      HistoryLeadsToState(id, plan, baseline, disks, calls, j - 1);
      hide LeadsTo;
      if TookEffect(id, disks, j - 1) {
        LeadsOn(Effects(id, disks, calls, j - 1), Load(id, disks[j - 1]).value.state, calls[j - 1].event);
      }
    }
  }

  /** Where an effective call stands in the history. */
  lemma {:induction false} EffectAt(id: Identity, disks: seq<Disk>, calls: seq<Call>, i: nat, j: nat)
    requires |disks| == |calls| + 1 && i < j <= |calls| && TookEffect(id, disks, i)
    ensures |Effects(id, disks, calls, i)| < |Effects(id, disks, calls, j)|
    ensures Effects(id, disks, calls, j)[|Effects(id, disks, calls, i)|] == calls[i].event
    decreases j
  {
    hide TookEffect;
    if i < j - 1 { EffectAt(id, disks, calls, i, j - 1); }
  }

  /** The effective call behind a position of the history. */
  lemma {:induction false} CallBehind(id: Identity, disks: seq<Disk>, calls: seq<Call>, j: nat, m: nat) returns (i: nat)
    requires |disks| == |calls| + 1 && j <= |calls| && m < |Effects(id, disks, calls, j)|
    ensures i < j && TookEffect(id, disks, i) && |Effects(id, disks, calls, i)| == m && calls[i].event == Effects(id, disks, calls, j)[m]
    decreases j
  {
    hide TookEffect;
    if m < |Effects(id, disks, calls, j - 1)| {
      i := CallBehind(id, disks, calls, j - 1, m);
    } else {
      i := j - 1;
    }
  }

  lemma {:induction false} EffectsGrow(id: Identity, disks: seq<Disk>, calls: seq<Call>, i: nat, j: nat)
    requires |disks| == |calls| + 1 && i <= j <= |calls|
    ensures Effects(id, disks, calls, i) <= Effects(id, disks, calls, j)
    decreases j
  {
    hide TookEffect;
    if i < j { EffectsGrow(id, disks, calls, i, j - 1); }
  }

  /** An approval that was asked for is never passed: every later snapshot that loads is the one that waits for it. */
  lemma {:induction false} ApprovalIsFinal(id: Identity, plan: string, baseline: string, disks: seq<Disk>, calls: seq<Call>, i: nat, j: nat)
    requires Run(id, plan, baseline, disks, calls) && i < j < |disks|
    requires TookEffect(id, disks, i) && calls[i].event == APPROVAL_REQUIRED
    requires Load(id, disks[j]).Some?
    ensures Load(id, disks[j]) == Load(id, disks[i + 1]) && Load(id, disks[j]).value.state == WAITING_APPROVAL
    decreases j
  {
    hide Load, RefsFor, CallStep, Planned, AfterLastWrite, SealedIn;
    CallOutcome(id, disks[j - 1], calls[j - 1], disks[j]);
    if i + 1 < j {
      ApprovalIsFinal(id, plan, baseline, disks, calls, i, j - 1);
    }
  }

  lemma {:induction false} NoApprovalWaits(k: nat)
    ensures APPROVAL_REQUIRED !in Waits(k)
  {
    if k > 0 { NoApprovalWaits(k - 1); }
  }

  lemma {:induction false} CompleteWord(events: seq<Event>)
    returns (at: nat)
    requires LeadsTo(events, COMPLETE)
    ensures 3 < at < |events| && events[3] == GOVERNANCE_READY && events[at] == EXECUTION_ACCEPTED && APPROVAL_REQUIRED !in events
  {
    hide Waits;
    var k: nat, recovered :| events == Executed(k, recovered) + [GATE_GO_REFERENCED];
    NoApprovalWaits(k);
    at := |Pending(k)|;
    assert Pending(k)[3] == GOVERNANCE_READY;
  }

  /**
   A completed run was cleared before it was executed: governance was ready, execution was accepted
   later, and no approval was pending at any time.
   */
  lemma {:induction false} CompleteWasCleared(id: Identity, plan: string, baseline: string, disks: seq<Disk>, calls: seq<Call>, j: nat)
    returns (cleared: nat, started: nat)
    requires Run(id, plan, baseline, disks, calls) && j < |disks|
    requires Load(id, disks[j]).Some? && Load(id, disks[j]).value.state == COMPLETE
    ensures cleared < started < j && TookEffect(id, disks, cleared) && TookEffect(id, disks, started)
    ensures calls[cleared].event == GOVERNANCE_READY && calls[started].event == EXECUTION_ACCEPTED
    ensures forall i :: 0 <= i < j && TookEffect(id, disks, i) ==> calls[i].event != APPROVAL_REQUIRED
  {
    assert |disks| == |calls| + 1;
    hide TookEffect, Load, Run;
    HistoryLeadsToState(id, plan, baseline, disks, calls, j);
    hide Effects, LeadsTo;
    var at := CompleteWord(Effects(id, disks, calls, j));
    cleared := CallBehind(id, disks, calls, j, 3);
    started := CallBehind(id, disks, calls, j, at);
    if started <= cleared {
      EffectsGrow(id, disks, calls, started, cleared);
    }
    forall i | 0 <= i < j && TookEffect(id, disks, i)
      ensures calls[i].event != APPROVAL_REQUIRED
    {
      EffectAt(id, disks, calls, i, j);
    }
  }

  /** Recovery is entered from execution and left only for review. */
  lemma {:induction false} RecoveryIsReviewed(id: Identity, plan: string, baseline: string, disks: seq<Disk>, calls: seq<Call>, i: nat)
    requires Run(id, plan, baseline, disks, calls) && i < |calls| && TookEffect(id, disks, i)
    ensures Load(id, disks[i]).value.state == RECOVERY_COORDINATION ==>
              calls[i].event == RECOVERY_REVIEWED && Load(id, disks[i + 1]).value.state == REVIEW_PENDING
    ensures Load(id, disks[i + 1]).value.state == RECOVERY_COORDINATION ==>
              calls[i].event == RECOVERY_REQUIRED && Load(id, disks[i]).value.state == EXECUTION_IN_PROGRESS
  {
    hide Load, RefsFor, CallStep, Planned, AfterLastWrite, SealedIn;
    CallOutcome(id, disks[i], calls[i], disks[i + 1]);
  }

  // ---- The refs on record ----

  /** The ref a handoff leaves: none without an assignment. */
  function Handed(assignment: string): seq<Ref> {
    if assignment == "" then [] else [Plain("full-plan-assignment:" + Strip(assignment))]
  }

  /** The refs the gate call leaves. */
  function Closed(completion: Option<Completion>): seq<Ref> {
    if completion.None? then []
    else
      var c := completion.value;
      [Plain("full-plan-gate:" + c.gateRef), Plain("full-plan-fanin:" + c.faninRef), Sealed(c)]
  }

  /** The assignment given with the handoff among the first `j` calls that took effect. */
  ghost function AssignmentOf(id: Identity, disks: seq<Disk>, calls: seq<Call>, j: nat): string
    requires |disks| == |calls| + 1 && j <= |calls|
  {
    if j == 0 then ""
    else if TookEffect(id, disks, j - 1) && calls[j - 1].event == FULL_PLAN_HANDOFF_REFERENCED then calls[j - 1].assignment
    else AssignmentOf(id, disks, calls, j - 1)
  }

  /** The completion given with the gate call. */
  ghost function CompletionOf(id: Identity, disks: seq<Disk>, calls: seq<Call>, j: nat): Option<Completion>
    requires |disks| == |calls| + 1 && j <= |calls|
  {
    if j == 0 then None
    else if TookEffect(id, disks, j - 1) && calls[j - 1].event == GATE_GO_REFERENCED then calls[j - 1].completion
    else CompletionOf(id, disks, calls, j - 1)
  }

  lemma {:induction false} NormalStays(refs: seq<Ref>)
    requires forall i :: 0 <= i < |refs| ==> NormalRef(refs[i]) == refs[i]
    ensures NormalRefs(refs) == refs
  {
    if refs != [] { NormalStays(refs[..|refs| - 1]); }
  }

  lemma {:induction false} TaggedIsNormal(tag: string, value: string)
    requires tag != "" && !IsSpace(tag[0]) && Trimmed(value) && value != ""
    ensures NormalRef(Plain(tag + value)) == Plain(tag + value)
  {
    assert Trimmed(tag + value);
    StripTrims(tag + value);
  }

  lemma {:induction false} RefsAreNormal(assignment: string, completion: Option<Completion>)
    requires assignment != "" ==> Strip(assignment) != ""
    requires completion.Some? ==> ValidCompletion(completion.value)
    ensures NormalRefs(Handed(assignment) + Closed(completion)) == Handed(assignment) + Closed(completion)
  {
    hide Strip, NormalRef, NormalRefs, Trimmed;
    StripTrims(assignment);
    if assignment != "" { TaggedIsNormal("full-plan-assignment:", Strip(assignment)); }
    if completion.Some? {
      StripTrims(completion.value.gateRef);
      StripTrims(completion.value.faninRef);
      TaggedIsNormal("full-plan-gate:", completion.value.gateRef);
      TaggedIsNormal("full-plan-fanin:", completion.value.faninRef);
      assert NormalRef(Sealed(completion.value)) == Sealed(completion.value) by { SealedIsNormal(completion.value); }
    }
    NormalStays(Handed(assignment) + Closed(completion));
  }

  lemma SealedIsNormal(c: Completion)
    ensures NormalRef(Sealed(c)) == Sealed(c)
  {}

  /** Tags keep the refs apart. */
  lemma {:induction false} TagsDiffer(a: string, b: string, c: string)
    ensures "full-plan-assignment:" + a != "full-plan-gate:" + b
    ensures "full-plan-assignment:" + a != "full-plan-fanin:" + c
    ensures "full-plan-gate:" + b != "full-plan-fanin:" + c
  {
    assert ("full-plan-assignment:" + a)[10] == 'a' && ("full-plan-gate:" + b)[10] == 'g' && ("full-plan-fanin:" + c)[10] == 'f';
  }

  /** What the gate call adds to the refs of the handoff. */
  lemma {:induction false} GateAdds(assignment: string, call: Call, c: Completion)
    requires call.event == GATE_GO_REFERENCED && call.completion == Some(c) && call.assignment == ""
    ensures RefsFor(Handed(assignment), call) == Some(Handed(assignment) + Closed(Some(c)))
  {
    hide Strip, Word;
    TagsDiffer(Strip(assignment), c.gateRef, c.faninRef);
    var handed, g, f := Handed(assignment), Plain("full-plan-gate:" + c.gateRef), Plain("full-plan-fanin:" + c.faninRef);
    assert Adjoin(handed, g) == handed + [g];
    assert Adjoin(handed + [g], f) == handed + [g] + [f];
    assert Adjoin(handed + [g] + [f], Sealed(c)) == handed + [g] + [f] + [Sealed(c)];
    assert RefsFor(handed, call) == Some(Adjoin(Adjoin(Adjoin(handed, g), f), Sealed(c)));
    assert handed + Closed(Some(c)) == handed + [g] + [f] + [Sealed(c)];
  }

  /** What a call of the coordinator may carry, by its event. */
  lemma RefsForCarries(refs: seq<Ref>, call: Call)
    requires RefsFor(refs, call).Some?
    ensures call.completion.Some? <==> call.event == GATE_GO_REFERENCED
    ensures call.assignment != "" ==> call.event == FULL_PLAN_HANDOFF_REFERENCED && Word(call.assignment) == Some(Strip(call.assignment)) && Strip(call.assignment) != ""
    ensures call.completion.None? ==>
              RefsFor(refs, call).value == if call.assignment == "" then refs else Adjoin(refs, Plain("full-plan-assignment:" + Strip(call.assignment)))
  {}

  /** The states between which each event moves, as far as the refs depend on them. */
  lemma RefEvents(s: WorkflowState, e: Event)
    requires NextState(s, e).Some?
    ensures s != COMPLETE && (e == GATE_GO_REFERENCED <==> NextState(s, e) == Some(COMPLETE))
    ensures e == FULL_PLAN_HANDOFF_REFERENCED ==> Stage(s) < 3
    ensures Stage(NextState(s, e).value) < 3 ==> Stage(s) < 3 && e != FULL_PLAN_HANDOFF_REFERENCED
  {}

  /** What one effective call does to the refs. */
  lemma {:induction false} RefsStep(s: WorkflowState, refs: seq<Ref>, call: Call, assignment: string, completion: Option<Completion>)
    requires NextState(s, call.event).Some? && RefsFor(refs, call).Some?
    requires refs == Handed(assignment) + Closed(completion) && (completion.Some? <==> s == COMPLETE)
    requires (assignment != "" ==> Strip(assignment) != "") && (Stage(s) < 3 ==> assignment == "")
    requires call.completion.Some? ==> ValidCompletion(call.completion.value)
    ensures var handed := if call.event == FULL_PLAN_HANDOFF_REFERENCED then call.assignment else assignment;
            && NormalRefs(RefsFor(refs, call).value) == Handed(handed) + Closed(call.completion)
            && (handed != "" ==> Strip(handed) != "") && (Stage(NextState(s, call.event).value) < 3 ==> handed == "")
    ensures call.completion.Some? <==> call.event == GATE_GO_REFERENCED
    ensures call.event == GATE_GO_REFERENCED <==> NextState(s, call.event) == Some(COMPLETE)
    ensures completion.None?
  {
    hide Strip, NormalRefs, ValidCompletion, RefsFor, NextState, Stage, Word;
    RefEvents(s, call.event);
    RefsForCarries(refs, call);
    var handed := if call.event == FULL_PLAN_HANDOFF_REFERENCED then call.assignment else assignment;
    assert refs == Handed(assignment);
    if call.completion.Some? { GateAdds(assignment, call, call.completion.value); }
    assert RefsFor(refs, call).value == Handed(handed) + Closed(call.completion);
    RefsAreNormal(handed, call.completion);
  }

  lemma NoRefs()
    ensures Handed("") + Closed(None) == []
  {}

  /** The snapshot a run loads records exactly the assignment of its handoff and the completion of its gate call. */
  lemma {:induction false} RefsExactly(id: Identity, plan: string, baseline: string, disks: seq<Disk>, calls: seq<Call>, j: nat)
    requires Run(id, plan, baseline, disks, calls) && j < |disks| && Load(id, disks[j]).Some?
    requires forall i :: 0 <= i < |calls| && calls[i].completion.Some? ==> ValidCompletion(calls[i].completion.value)
    ensures var s := Load(id, disks[j]).value;
            var assignment, completion := AssignmentOf(id, disks, calls, j), CompletionOf(id, disks, calls, j);
            && s.refs == Handed(assignment) + Closed(completion)
            && (completion.Some? <==> s.state == COMPLETE) && (completion.Some? ==> ValidCompletion(completion.value))
            && (Stage(s.state) < 3 ==> assignment == "") && (assignment != "" ==> Strip(assignment) != "")
    decreases j
  {
    hide Load, CallStep, Planned, AfterLastWrite, SealedIn, RefsFor, Strip, ValidCompletion, NormalRefs, Lawful, NextState, Handed, Closed;
    FirstSnapshot(id, plan, baseline, disks, calls);
    assert j == 0 ==> Handed("") + Closed(None) == [] by { NoRefs(); }
    if j > 0 {
      CallOutcome(id, disks[j - 1], calls[j - 1], disks[j]);
      RefsExactly(id, plan, baseline, disks, calls, j - 1);
      if TookEffect(id, disks, j - 1) {
        var s := Load(id, disks[j - 1]).value;
        RefsStep(s.state, s.refs, calls[j - 1], AssignmentOf(id, disks, calls, j - 1), CompletionOf(id, disks, calls, j - 1));
      }
    }
  }

  lemma {:induction false} TagsApply(a: string, g: string, f: string)
    ensures StartsWith("full-plan-assignment:" + a, "full-plan-assignment:") && ("full-plan-assignment:" + a)[|"full-plan-assignment:"|..] == a
    ensures StartsWith("full-plan-fanin:" + f, "full-plan-fanin:") && ("full-plan-fanin:" + f)[|"full-plan-fanin:"|..] == f
    ensures !StartsWith("full-plan-assignment:" + a, "full-plan-fanin:")
    ensures !StartsWith("full-plan-gate:" + g, "full-plan-fanin:") && !StartsWith("full-plan-gate:" + g, "full-plan-assignment:")
    ensures !StartsWith("full-plan-fanin:" + f, "full-plan-assignment:")
  {
    StartsApart("full-plan-assignment:" + a, "full-plan-fanin:");
    StartsApart("full-plan-gate:" + g, "full-plan-fanin:");
    StartsApart("full-plan-gate:" + g, "full-plan-assignment:");
    StartsApart("full-plan-fanin:" + f, "full-plan-assignment:");
  }

  lemma {:induction false} StartsApart(s: string, tag: string)
    requires |s| > 10 && |tag| > 10 && s[10] != tag[10]
    ensures !StartsWith(s, tag)
  {
    assert |tag| <= |s| ==> s[..|tag|][10] == s[10];
  }

  lemma {:induction false} TaggedLookup(assignment: string, completion: Option<Completion>)
    ensures LastTagged(Handed(assignment) + Closed(completion), "full-plan-assignment:") == if assignment == "" then "" else Strip(assignment)
    ensures LastTagged(Handed(assignment) + Closed(completion), "full-plan-fanin:") == if completion.None? then "" else completion.value.faninRef
  {
    hide Strip, StartsWith, LastTagged;
    LastTaggedNothing("full-plan-assignment:");
    LastTaggedNothing("full-plan-fanin:");
    var handed, closed := Handed(assignment), Closed(completion);
    if assignment != "" {
      TagsApply(Strip(assignment), "", "");
      LastTaggedAppend([], handed[0], "full-plan-assignment:");
      LastTaggedAppend([], handed[0], "full-plan-fanin:");
      assert [] + [handed[0]] == handed;
    }
    if completion.Some? {
      TagsApply("", completion.value.gateRef, completion.value.faninRef);
      Append3(handed, closed, "full-plan-assignment:");
      Append3(handed, closed, "full-plan-fanin:");
    } else {
      assert handed + closed == handed;
    }
  }

  lemma LastTaggedNothing(tag: string)
    ensures LastTagged([], tag) == ""
  {}

  lemma {:induction false} Append3(refs: seq<Ref>, more: seq<Ref>, tag: string)
    requires |more| == 3 && more[0].Plain? && more[1].Plain? && more[2].Sealed? && !StartsWith(more[0].text, tag)
    ensures LastTagged(refs + more, tag) == if StartsWith(more[1].text, tag) then more[1].text[|tag|..] else LastTagged(refs, tag)
  {
    hide StartsWith, LastTagged;
    LastTaggedAppend(refs, more[0], tag);
    LastTaggedAppend(refs + [more[0]], more[1], tag);
    LastTaggedAppend(refs + [more[0]] + [more[1]], more[2], tag);
    assert refs + more == refs + [more[0]] + [more[1]] + [more[2]];
  }

  lemma {:induction false} LastTaggedAppend(refs: seq<Ref>, ref: Ref, tag: string)
    ensures LastTagged(refs + [ref], tag) == if ref.Plain? && StartsWith(ref.text, tag) then ref.text[|tag|..] else LastTagged(refs, tag)
  {
    assert (refs + [ref])[..|refs|] == refs;
  }

  lemma {:induction false} OnlyHandoff(id: Identity, plan: string, baseline: string, disks: seq<Disk>, calls: seq<Call>, i: nat, j: nat)
    requires Run(id, plan, baseline, disks, calls) && i < j <= |calls|
    requires TookEffect(id, disks, i) && calls[i].event == FULL_PLAN_HANDOFF_REFERENCED
    ensures AssignmentOf(id, disks, calls, j) == calls[i].assignment
    decreases j
  {
    hide TookEffect, Load, CallStep, Planned, AfterLastWrite;
    if i < j - 1 {
      OnlyHandoff(id, plan, baseline, disks, calls, i, j - 1);
      if TookEffect(id, disks, j - 1) { HandoffAtMostOnce(id, plan, baseline, disks, calls, i, j - 1); }
    }
  }

  lemma {:induction false} NoHandoff(id: Identity, disks: seq<Disk>, calls: seq<Call>, j: nat)
    requires |disks| == |calls| + 1 && j <= |calls|
    requires forall i :: 0 <= i < j && TookEffect(id, disks, i) ==> calls[i].event != FULL_PLAN_HANDOFF_REFERENCED
    ensures AssignmentOf(id, disks, calls, j) == ""
  {
    hide TookEffect;
    if j > 0 { NoHandoff(id, disks, calls, j - 1); }
  }

  /** After the gate call nothing takes effect. */
  lemma {:induction false} GateIsLast(id: Identity, plan: string, baseline: string, disks: seq<Disk>, calls: seq<Call>, i: nat, j: nat)
    requires Run(id, plan, baseline, disks, calls) && i < j < |calls| && TookEffect(id, disks, i) && calls[i].event == GATE_GO_REFERENCED
    ensures !TookEffect(id, disks, j)
  {
    hide Load, RefsFor, CallStep, Planned, AfterLastWrite, SealedIn, Strip;
    if TookEffect(id, disks, j) {
      CallOutcome(id, disks[i], calls[i], disks[i + 1]);
      PlanFixedRefsGrow(id, plan, baseline, disks, calls, i + 1, j);
      StepAt(id, plan, baseline, disks, calls, j);
    }
  }

  lemma GateNeedsCompletion(refs: seq<Ref>, call: Call)
    requires RefsFor(refs, call).Some? && call.event == GATE_GO_REFERENCED
    ensures call.completion.Some?
  {}

  lemma {:induction false} OnlyGate(id: Identity, plan: string, baseline: string, disks: seq<Disk>, calls: seq<Call>, i: nat, j: nat)
    requires Run(id, plan, baseline, disks, calls) && i < j <= |calls|
    requires TookEffect(id, disks, i) && calls[i].event == GATE_GO_REFERENCED
    ensures CompletionOf(id, disks, calls, j) == calls[i].completion && calls[i].completion.Some?
    decreases j
  {
    hide Load, Planned, AfterLastWrite, SealedIn, NextState, CrashPoints, RefsFor, Issued;
    if i == j - 1 {
      CallOutcome(id, disks[i], calls[i], disks[i + 1]);
      GateNeedsCompletion(Load(id, disks[i]).value.refs, calls[i]);
    } else {
      GateIsLast(id, plan, baseline, disks, calls, i, j - 1);
      OnlyGate(id, plan, baseline, disks, calls, i, j - 1);
    }
  }

  /** The run a coordinator reports names the assignment of the handoff and the fan-in of the gate call, each only once it was given. */
  lemma {:induction false} ReportedRefs(id: Identity, plan: string, baseline: string, disks: seq<Disk>, calls: seq<Call>, j: nat)
    requires Run(id, plan, baseline, disks, calls) && j < |disks| && Load(id, disks[j]).Some?
    requires forall i :: 0 <= i < |calls| && calls[i].completion.Some? ==> ValidCompletion(calls[i].completion.value)
    ensures var office := OfficeRunOf(Load(id, disks[j]).value);
            && office.run == id.run && office.revision == |Effects(id, disks, calls, j)| && LeadsTo(Effects(id, disks, calls, j), office.state)
            && (forall i :: 0 <= i < j && TookEffect(id, disks, i) && calls[i].event == FULL_PLAN_HANDOFF_REFERENCED ==> office.assignment == Strip(calls[i].assignment))
            && ((forall i :: 0 <= i < j && TookEffect(id, disks, i) ==> calls[i].event != FULL_PLAN_HANDOFF_REFERENCED) ==> office.assignment == "")
            && (forall i :: 0 <= i < j && TookEffect(id, disks, i) && calls[i].event == GATE_GO_REFERENCED ==>
                  calls[i].completion.Some? && office.fanin == calls[i].completion.value.faninRef)
            && (office.state != COMPLETE ==> office.fanin == "")
  {
    assert |disks| == |calls| + 1;
    hide Load, CallStep, Planned, AfterLastWrite, LeadsTo, Run, Strip, TookEffect, LastTagged, Handed, Closed;
    HistoryLeadsToState(id, plan, baseline, disks, calls, j);
    RefsExactly(id, plan, baseline, disks, calls, j);
    LoadedIsNormal(id, disks[j]);
    var assignment, completion := AssignmentOf(id, disks, calls, j), CompletionOf(id, disks, calls, j);
    TaggedLookup(assignment, completion);
    StripTrims(assignment);
    StripTrims("");
    if completion.Some? { StripTrims(completion.value.faninRef); }
    forall i | 0 <= i < j && TookEffect(id, disks, i) && calls[i].event == FULL_PLAN_HANDOFF_REFERENCED
      ensures assignment == calls[i].assignment
    {
      OnlyHandoff(id, plan, baseline, disks, calls, i, j);
    }
    forall i | 0 <= i < j && TookEffect(id, disks, i) && calls[i].event == GATE_GO_REFERENCED
      ensures completion == calls[i].completion && completion.Some?
    {
      OnlyGate(id, plan, baseline, disks, calls, i, j);
    }
    if forall i :: 0 <= i < j && TookEffect(id, disks, i) ==> calls[i].event != FULL_PLAN_HANDOFF_REFERENCED {
      NoHandoff(id, disks, calls, j);
    }
  }

  // ---- Every word happens ----

  /** Nothing is ever pending on record in a coordinator run, not even while it waits for approval. */
  lemma {:induction false} NothingPending(id: Identity, plan: string, baseline: string, disks: seq<Disk>, calls: seq<Call>, j: nat)
    requires Run(id, plan, baseline, disks, calls) && j < |disks| && Load(id, disks[j]).Some?
    ensures Load(id, disks[j]).value.pendingApproval == "" && Load(id, disks[j]).value.pendingManual == ""
    decreases j
  {
    hide Load, NextState, RefsFor, CallStep, Planned, AfterLastWrite, SealedIn;
    FirstSnapshot(id, plan, baseline, disks, calls);
    if j > 0 {
      CallOutcome(id, disks[j - 1], calls[j - 1], disks[j]);
      NothingPending(id, plan, baseline, disks, calls, j - 1);
    }
  }

  /** The texts every record of a run repeats hold no raw line separator. */
  ghost predicate CleanTexts(s: Snapshot) {
    OneLine(s.project) && OneLine(s.run) && OneLine(s.plan) && OneLine(s.baseline)
  }

  function Sample(): Completion {
    var sha := seq(64, _ => '0');
    Completion("r", "g", "g", sha, "f", sha)
  }

  /** A call with the event and nothing else to say; at the gate it carries a completion. */
  function Bare(e: Event): Call {
    Call(e, "r", "", if e == GATE_GO_REFERENCED then Some(Sample()) else None, true)
  }

  ghost predicate AllBare(calls: seq<Call>) {
    forall i :: 0 <= i < |calls| ==> calls[i] == Bare(calls[i].event)
  }

  lemma {:induction false} PlainText(value: string)
    requires Trimmed(value) && value != "" && |value| <= 100 && forall i :: 0 <= i < |value| ==> ' ' <= value[i] <= 'z'
    ensures Keeps(value, 512) && Strip(value) == value && OneLine(value)
  {
    StripTrims(value);
  }

  lemma {:induction false} SampleIsValid()
    ensures ValidCompletion(Sample())
  {
    hide Keeps, OneLine, Strip;
    PlainText("r");
    PlainText("g");
    PlainText("f");
  }

  lemma {:induction false} ClosingRefs(call: Call, c: Completion, g: Ref, f: Ref)
    requires call.event == GATE_GO_REFERENCED && call.assignment == "" && call.completion == Some(c)
    requires g == Plain("full-plan-gate:" + c.gateRef) && f == Plain("full-plan-fanin:" + c.faninRef) && g != f
    ensures RefsFor([], call) == Some([g, f, Sealed(c)])
  {
    hide Word;
    assert Adjoin([], g) == [g] && Adjoin([g], f) == [g, f] && Adjoin([g, f], Sealed(c)) == [g, f, Sealed(c)];
  }

  /** Refs that are saved as they are and keep their record on one line. */
  ghost predicate GoodRefs(refs: seq<Ref>) {
    && KeepsRefs(refs) && NormalRefs(refs) == refs
    && forall i :: 0 <= i < |refs| && refs[i].Plain? ==> OneLine(refs[i].text)
  }

  lemma {:induction false} SampleRefs()
    ensures RefsFor([], Bare(GATE_GO_REFERENCED)).Some? && GoodRefs(RefsFor([], Bare(GATE_GO_REFERENCED)).value)
  {
    hide Keeps, OneLine, Strip, RefsFor, GoodRefs;
    var g, f := Plain("full-plan-gate:g"), Plain("full-plan-fanin:f");
    assert g.text[10] != f.text[10];
    assert "full-plan-gate:" + "g" == g.text && "full-plan-fanin:" + "f" == f.text;
    ClosingRefs(Bare(GATE_GO_REFERENCED), Sample(), g, f);
    PlainText(g.text);
    PlainText(f.text);
    ThreeRefs(g, f, Sealed(Sample()));
  }

  lemma {:induction false} BareRefs(e: Event)
    ensures RefsFor([], Bare(e)).Some? && GoodRefs(RefsFor([], Bare(e)).value)
    ensures Bare(e).completion.Some? ==> ValidCompletion(Bare(e).completion.value)
  {
    hide Word, Strip, IsSha256;
    if e == GATE_GO_REFERENCED {
      hide GoodRefs, RefsFor;
      SampleIsValid();
      SampleRefs();
    }
  }

  lemma {:induction false} ThreeRefs(g: Ref, f: Ref, c: Ref)
    requires g.Plain? && f.Plain? && c.Sealed? && g != f
    requires Keeps(g.text, 512) && Strip(g.text) == g.text && OneLine(g.text)
    requires Keeps(f.text, 512) && Strip(f.text) == f.text && OneLine(f.text)
    ensures GoodRefs([g, f, c])
  {
    hide Keeps, Strip, OneLine;
    NormalStays([g, f, c]);
  }

  lemma Declared(s: WorkflowState, e: Event)
    requires NextState(s, e).Some?
    ensures !NextState(s, e).value.Undeclared?
  {}

  /** Wherever a clean run loads, every declared event can be carried out and committed. */
  lemma {:induction false} BareCommits(id: Identity, disk: Disk, e: Event)
    requires Load(id, disk).Some?
    requires var s := Load(id, disk).value;
             NextState(s.state, e).Some? && s.refs == [] && s.pendingApproval == "" && s.pendingManual == "" && CleanTexts(s)
    ensures CallPlans(id, disk, Bare(e)) && CallCommits(id, disk, Bare(e))
  {
    hide RefsFor, Strip, Keeps, NormalRefs, Load, NextState, Planned, OneLine, RecordSeparators, NextEntry, KeepsRefs;
    var s := Load(id, disk).value;
    BareRefs(e);
    PlainText("r");
    LoadedIsNormal(id, disk);
    Declared(s.state, e);
    var cmd := Advance(NextState(s.state, e).value, "r", RefsFor([], Bare(e)), None, None, true);
    assert Issued(id, disk, Bare(e)) == Some(cmd);
    AdvanceExactly(id, disk, cmd);
    PlannedAdvance(id, disk, cmd);
    EmptyIsOneLine();
    RecordIsOneLineExactly(NextEntry(id, disk, cmd));
  }

  lemma EmptyIsOneLine()
    ensures OneLine("")
  {}

  /** Every word is the history of some run, when the texts that all its records repeat are clean. */
  lemma {:induction false} EveryHistoryHappens(id: Identity, plan: string, baseline: string, events: seq<Event>, s: WorkflowState)
    returns (disks: seq<Disk>, calls: seq<Call>)
    requires Planned(id, Disk(None, None), Initialize(plan, baseline, NEW, true)).Some?
    requires CleanTexts(Planned(id, Disk(None, None), Initialize(plan, baseline, NEW, true)).value)
    requires LeadsTo(events, s)
    ensures Run(id, plan, baseline, disks, calls)
    ensures Load(id, disks[|calls|]).Some? && Load(id, disks[|calls|]).value.state == s
    ensures Effects(id, disks, calls, |calls|) == events
  {
    TableExactly(events, s);
    hide LeadsTo;
    disks, calls := Enact(id, plan, baseline, events);
  }

  lemma {:induction false} Enact(id: Identity, plan: string, baseline: string, events: seq<Event>)
    returns (disks: seq<Disk>, calls: seq<Call>)
    requires Planned(id, Disk(None, None), Initialize(plan, baseline, NEW, true)).Some?
    requires CleanTexts(Planned(id, Disk(None, None), Initialize(plan, baseline, NEW, true)).value)
    requires Walk(events).Some?
    ensures Run(id, plan, baseline, disks, calls) && AllBare(calls)
    ensures Load(id, disks[|calls|]).Some? && Load(id, disks[|calls|]).value.state == Walk(events).value
    ensures Effects(id, disks, calls, |calls|) == events
  {
    if events == [] {
      hide Load, Planned, AfterLastWrite, NextState, CleanTexts;
      disks, calls := [AfterLastWrite(id, Disk(None, None), Initialize(plan, baseline, NEW, true))], [];
      FirstSnapshot(id, plan, baseline, disks, calls);
    } else {
      hide Load, Planned, AfterLastWrite, NextState, CleanTexts, Run, AllBare, Effects;
      var init, e := events[..|events| - 1], events[|events| - 1];
      disks, calls := Enact(id, plan, baseline, init);
      disks, calls := EnactOne(id, plan, baseline, disks, calls, e);
      assert events == init + [e];
    }
  }

  lemma {:induction false} BareAssignment(id: Identity, disks: seq<Disk>, calls: seq<Call>, j: nat)
    requires |disks| == |calls| + 1 && j <= |calls|
    requires forall i :: 0 <= i < |calls| ==> calls[i].assignment == ""
    ensures AssignmentOf(id, disks, calls, j) == ""
  {
    hide TookEffect;
    if j > 0 { BareAssignment(id, disks, calls, j - 1); }
  }

  /** What a run of bare calls has on record before its gate call. */
  lemma {:induction false} BareHistory(id: Identity, plan: string, baseline: string, disks: seq<Disk>, calls: seq<Call>)
    requires Run(id, plan, baseline, disks, calls) && AllBare(calls)
    requires CleanTexts(Planned(id, Disk(None, None), Initialize(plan, baseline, NEW, true)).value)
    requires Load(id, disks[|calls|]).Some? && Load(id, disks[|calls|]).value.state != COMPLETE
    ensures var s := Load(id, disks[|calls|]).value;
            s.refs == [] && s.pendingApproval == "" && s.pendingManual == "" && CleanTexts(s)
  {
    hide Load, AfterLastWrite, Planned, MakeSnapshot, Strip, OneLine, CallStep, ValidCompletion, Handed, Closed, HasDuplicate;
    forall i | 0 <= i < |calls|
      ensures calls[i].assignment == "" && (calls[i].completion.Some? ==> ValidCompletion(calls[i].completion.value))
    {
      BareRefs(calls[i].event);
    }
    NothingPending(id, plan, baseline, disks, calls, |calls|);
    RefsExactly(id, plan, baseline, disks, calls, |calls|);
    BareAssignment(id, disks, calls, |calls|);
    NoRefs();
    PlanFixedRefsGrow(id, plan, baseline, disks, calls, 0, |calls|);
    LoadedIsNormal(id, disks[0]);
    LoadedIsNormal(id, disks[|calls|]);
    CommittedLoads(id, Disk(None, None), Initialize(plan, baseline, NEW, true));
  }

  lemma {:induction false} SamePrefix(id: Identity, disks: seq<Disk>, calls: seq<Call>, disks': seq<Disk>, calls': seq<Call>, j: nat)
    requires |disks| == |calls| + 1 && |disks'| == |calls'| + 1 && disks <= disks' && calls <= calls' && j <= |calls|
    ensures Effects(id, disks', calls', j) == Effects(id, disks, calls, j)
  {
    hide Load;
    if j > 0 { SamePrefix(id, disks, calls, disks', calls', j - 1); }
  }

  lemma {:induction false} EnactOne(id: Identity, plan: string, baseline: string, disks: seq<Disk>, calls: seq<Call>, e: Event)
    returns (disks': seq<Disk>, calls': seq<Call>)
    requires Run(id, plan, baseline, disks, calls) && AllBare(calls)
    requires CleanTexts(Planned(id, Disk(None, None), Initialize(plan, baseline, NEW, true)).value)
    requires Load(id, disks[|calls|]).Some? && NextState(Load(id, disks[|calls|]).value.state, e).Some?
    ensures Run(id, plan, baseline, disks', calls') && AllBare(calls')
    ensures Load(id, disks'[|calls'|]).Some? && Some(Load(id, disks'[|calls'|]).value.state) == NextState(Load(id, disks[|calls|]).value.state, e)
    ensures Effects(id, disks', calls', |calls'|) == Effects(id, disks, calls, |calls|) + [e]
  {
    hide Load, Planned, AfterLastWrite, CleanTexts, CallStep, Bare, NextState;
    var disk, s := disks[|calls|], Load(id, disks[|calls|]).value;
    RefEvents(s.state, e);
    BareHistory(id, plan, baseline, disks, calls);
    var after := BareStep(id, disk, e);
    disks', calls' := disks + [after], calls + [Bare(e)];
    RunExtends(id, plan, baseline, disks, calls, Bare(e), after);
    SamePrefix(id, disks, calls, disks', calls', |calls|);
    hide Run;
  }

  lemma {:induction false} RunExtends(id: Identity, plan: string, baseline: string, disks: seq<Disk>, calls: seq<Call>, call: Call, after: Disk)
    requires Run(id, plan, baseline, disks, calls) && CallStep(id, disks[|calls|], call, after)
    ensures Run(id, plan, baseline, disks + [after], calls + [call])
  {
    hide CallStep, Planned, AfterLastWrite;
    var disks', calls' := disks + [after], calls + [call];
    forall i | 0 <= i < |calls'|
      ensures CallStep(id, disks'[i], calls'[i], disks'[i + 1])
    {
      if i < |calls| { assert CallStep(id, disks[i], calls[i], disks[i + 1]); }
    }
  }

  lemma {:induction false} BareStep(id: Identity, disk: Disk, e: Event) returns (after: Disk)
    requires Load(id, disk).Some?
    requires var s := Load(id, disk).value;
             NextState(s.state, e).Some? && s.refs == [] && s.pendingApproval == "" && s.pendingManual == "" && CleanTexts(s)
    ensures CallStep(id, disk, Bare(e), after) && Load(id, after).Some? && Load(id, after) != Load(id, disk) && Bare(e).event == e
    ensures Some(Load(id, after).value.state) == NextState(Load(id, disk).value.state, e)
  {
    hide Load, Planned, AfterLastWrite, CleanTexts, NextEntry, RecordSeparators, RefsFor, NextState, NormalRefs;
    BareCommits(id, disk, e);
    var cmd := Issued(id, disk, Bare(e)).value;
    CommittedLoads(id, disk, cmd);
    PlannedAdvance(id, disk, cmd);
    after := AfterLastWrite(id, disk, cmd);
  }

  /** Without clean texts nothing happens at all: no call of the run ever takes effect. */
  lemma {:induction false} EffectNeedsCleanTexts(id: Identity, plan: string, baseline: string, disks: seq<Disk>, calls: seq<Call>, i: nat)
    requires Run(id, plan, baseline, disks, calls) && i < |calls| && TookEffect(id, disks, i)
    ensures Load(id, disks[0]).Some? && CleanTexts(Load(id, disks[0]).value)
  {
    hide Load, CallStep, Strip, CleanTexts, AfterLastWrite, Planned, HasDuplicate, MakeSnapshot, Stage;
    assert CallStep(id, disks[i], calls[i], disks[i + 1]);
    EffectIsClean(id, disks[i], calls[i], disks[i + 1]);
    PlanFixedRefsGrow(id, plan, baseline, disks, calls, 0, i + 1);
    LoadedIsNormal(id, disks[0]);
    LoadedIsNormal(id, disks[i + 1]);
    SameTexts(Load(id, disks[0]).value, Load(id, disks[i + 1]).value);
  }

  lemma SameTexts(s: Snapshot, s': Snapshot)
    requires s.project == s'.project && s.run == s'.run && s.plan == s'.plan && s.baseline == s'.baseline && CleanTexts(s')
    ensures CleanTexts(s)
  {}

  lemma {:induction false} EffectIsClean(id: Identity, disk: Disk, call: Call, after: Disk)
    requires CallStep(id, disk, call, after) && Load(id, after).Some? && Load(id, after) != Load(id, disk)
    ensures CleanTexts(Load(id, after).value)
  {
    hide Load, NextState, RefsFor, CrashPoints, CleanTexts;
    CommittedIsClean(id, disk, Issued(id, disk, call).value, after);
  }

  lemma {:induction false} CommittedIsClean(id: Identity, disk: Disk, cmd: Command, after: Disk)
    requires cmd.Advance? && after in CrashPoints(id, disk, cmd) && Load(id, after).Some? && Load(id, after) != Load(id, disk)
    ensures CleanTexts(Load(id, after).value)
  {
    hide Load, Planned, CrashPoints, AfterLastWrite, OneLine, RecordSeparators, NextEntry;
    CrashOutcomes(id, disk, cmd, after);
    AdvanceExactly(id, disk, cmd);
    RecordIsOneLineExactly(NextEntry(id, disk, cmd));
  }
}
