/** The workflow coordinator driven through the state store, and the report that consumes a finished run. */
module OfficeWorkflow {
  import opened Common
  import opened Text
  import opened OfficeContracts
  import opened OfficeStore

  datatype Event =
    | REQUIREMENT_ACCEPTED | CONTEXT_ASSEMBLED | FULL_PLAN_HANDOFF_REFERENCED | GOVERNANCE_READY | APPROVAL_REQUIRED
    | STATE_CHANGE_UNAVAILABLE | EXECUTION_ACCEPTED | STATE_CHANGE_AUTHORITY_READY | RESULT_REFS_COMPLETE
    | RECOVERY_REQUIRED | RECOVERY_REVIEWED | GATE_GO_REFERENCED | UndeclaredEvent(name: string)

  /** `next_state` over the declared transition table. */
  function NextState(s: WorkflowState, e: Event): Option<WorkflowState> {
    match (s, e)
    case (NEW, REQUIREMENT_ACCEPTED) => Some(INTAKE_READY)
    case (INTAKE_READY, CONTEXT_ASSEMBLED) => Some(CONTEXT_READY)
    case (CONTEXT_READY, FULL_PLAN_HANDOFF_REFERENCED) => Some(PLAN_COORDINATED)
    case (PLAN_COORDINATED, GOVERNANCE_READY) => Some(EXECUTION_PENDING)
    case (PLAN_COORDINATED, APPROVAL_REQUIRED) => Some(WAITING_APPROVAL)
    case (EXECUTION_PENDING, STATE_CHANGE_UNAVAILABLE) => Some(WAITING_STATE_CHANGE_AUTHORITY)
    case (EXECUTION_PENDING, EXECUTION_ACCEPTED) => Some(EXECUTION_IN_PROGRESS)
    case (WAITING_STATE_CHANGE_AUTHORITY, STATE_CHANGE_AUTHORITY_READY) => Some(EXECUTION_PENDING)
    case (EXECUTION_IN_PROGRESS, RESULT_REFS_COMPLETE) => Some(REVIEW_PENDING)
    case (EXECUTION_IN_PROGRESS, RECOVERY_REQUIRED) => Some(RECOVERY_COORDINATION)
    case (RECOVERY_COORDINATION, RECOVERY_REVIEWED) => Some(REVIEW_PENDING)
    case (REVIEW_PENDING, GATE_GO_REFERENCED) => Some(COMPLETE)
    case _ => None
  }

  /** `workflow._text`: stripped, non-empty, at most 512 characters. */
  function Word(value: string): Option<string> {
    var item := Strip(value);
    if item == "" || |item| > 512 then None else Some(item)
  }

  predicate IsSha256(s: string) {
    |s| == 64 && forall i :: 0 <= i < |s| ==> '0' <= s[i] <= '9' || 'a' <= s[i] <= 'f'
  }

  /** What the `FullPlanCompletionRefV1` constructor guarantees of its instances. */
  predicate ValidCompletion(c: Completion) {
    && Word(c.fullPlanRunId) == Some(c.fullPlanRunId) && Word(c.gateId) == Some(c.gateId)
    && Word(c.gateRef) == Some(c.gateRef) && Word(c.faninRef) == Some(c.faninRef)
    && IsSha256(c.gateDigest) && IsSha256(c.faninDigest)
  }

  /** `encodable`: every text of the call has a UTF-8 form. */
  datatype Call = Call(event: Event, reason: string, assignment: string, completion: Option<Completion>, encodable: bool)

  /** The refs a call asks the store to save, or None when the coordinator raises. */
  function RefsFor(refs: seq<Ref>, call: Call): Option<seq<Ref>> {
    var word := Word(call.assignment);
    if call.assignment != "" && (call.event != FULL_PLAN_HANDOFF_REFERENCED || word.None?) then None
    else
      var handed := if call.assignment == "" then refs else Adjoin(refs, Plain("full-plan-assignment:" + word.value));
      if call.event == GATE_GO_REFERENCED then
        if call.completion.None? then None
        else
          var c := call.completion.value;
          Some(Adjoin(Adjoin(Adjoin(handed, Plain("full-plan-gate:" + c.gateRef)), Plain("full-plan-fanin:" + c.faninRef)), Sealed(c)))
      else if call.completion.Some? then None
      else Some(handed)
  }

  /** The store command a coordinator call issues, or None when it raises before writing. */
  function Issued(id: Identity, disk: Disk, call: Call): Option<Command> {
    var current := Load(id, disk);
    if current.None? then None
    else
      match (NextState(current.value.state, call.event), RefsFor(current.value.refs, call))
      case (Some(target), Some(refs)) => Some(Advance(target, call.reason, Some(refs), None, None, call.encodable))
      case _ => None
  }

  /** The call gets as far as writing. */
  predicate CallPlans(id: Identity, disk: Disk, call: Call) {
    Issued(id, disk, call).Some? && Planned(id, disk, Issued(id, disk, call).value).Some?
  }

  /** No text it would save holds a raw line separator. */
  predicate CallCommits(id: Identity, disk: Disk, call: Call)
    requires CallPlans(id, disk, call)
  {
    Commits(id, disk, Issued(id, disk, call).value)
  }

  ghost predicate CallStep(id: Identity, disk: Disk, call: Call, after: Disk) {
    match Issued(id, disk, call)
    case None => after == disk
    case Some(cmd) => after in CrashPoints(id, disk, cmd)
  }

  // ---- Runs ----

  /** Coordinator-driven histories from a fresh run in NEW, with a crash allowed inside every call. */
  ghost predicate Run(id: Identity, plan: string, baseline: string, disks: seq<Disk>, calls: seq<Call>) {
    && |disks| == |calls| + 1
    && Planned(id, Disk(None, None), Initialize(plan, baseline, NEW, true)).Some?
    && disks[0] == AfterLastWrite(id, Disk(None, None), Initialize(plan, baseline, NEW, true))
    && forall i :: 0 <= i < |calls| ==> CallStep(id, disks[i], calls[i], disks[i + 1])
  }

  /** Call `i` took effect: the store moved to a new revision. */
  ghost predicate TookEffect(id: Identity, disks: seq<Disk>, i: nat)
    requires i + 1 < |disks|
  {
    Load(id, disks[i]).Some? && Load(id, disks[i + 1]).Some? && Load(id, disks[i]) != Load(id, disks[i + 1])
  }

  ghost function SealedIn(refs: seq<Ref>): set<Completion> {
    set r | r in refs && r.Sealed? :: r.completion
  }

  /** How far the workflow table has progressed; only the wait for authority moves sideways. */
  function Stage(s: WorkflowState): nat {
    match s
    case NEW => 0
    case INTAKE_READY => 1
    case CONTEXT_READY => 2
    case PLAN_COORDINATED => 3
    case EXECUTION_IN_PROGRESS => 5
    case RECOVERY_COORDINATION => 6
    case REVIEW_PENDING => 7
    case COMPLETE => 8
    case _ => 4
  }

  lemma {:induction false} NormalRefsPrefix(refs: seq<Ref>, more: seq<Ref>)
    ensures NormalRefs(refs) <= NormalRefs(refs + more)
    decreases |more|
  {
    if more == [] {
      assert refs + more == refs;
    } else {
      NormalRefsPrefix(refs, more[..|more| - 1]);
      assert (refs + more)[..|refs + more| - 1] == refs + more[..|more| - 1];
    }
  }

  lemma {:induction false} NormalRefsSealed(refs: seq<Ref>)
    ensures SealedIn(NormalRefs(refs)) == SealedIn(refs)
  {
    if refs != [] {
      hide Strip;
      NormalRefsSealed(refs[..|refs| - 1]);
      SealedAppend(refs[..|refs| - 1], refs[|refs| - 1]);
      SealedAppend(NormalRefs(refs[..|refs| - 1]), NormalRef(refs[|refs| - 1]));
      assert refs == refs[..|refs| - 1] + [refs[|refs| - 1]];
    }
  }

  lemma {:induction false} SealedAppend(refs: seq<Ref>, ref: Ref)
    ensures SealedIn(refs + [ref]) == SealedIn(refs) + if ref.Sealed? then {ref.completion} else {}
  {
    assert forall c :: c in SealedIn(refs + [ref]) <==> Sealed(c) in refs + [ref];
    assert forall c :: c in SealedIn(refs) <==> Sealed(c) in refs;
  }

  lemma {:induction false} AdjoinExtends(refs: seq<Ref>, ref: Ref)
    ensures refs <= Adjoin(refs, ref)
    ensures SealedIn(Adjoin(refs, ref)) == SealedIn(refs) + if ref.Sealed? then {ref.completion} else {}
  {
    SealedAppend(refs, ref);
  }

  /** The refs a call saves extend the old ones; completions enter only at the gate. */
  lemma {:induction false} RefsForExtends(refs: seq<Ref>, call: Call)
    requires RefsFor(refs, call).Some?
    ensures refs <= RefsFor(refs, call).value
    ensures SealedIn(RefsFor(refs, call).value) ==
            SealedIn(refs) + if call.event == GATE_GO_REFERENCED then {call.completion.value} else {}
  {
    hide SealedIn, Adjoin, Word;
    AdjoinExtends(refs, Plain("full-plan-assignment:" + Pick(Word(call.assignment), "")));
    var handed := if call.assignment == "" then refs else Adjoin(refs, Plain("full-plan-assignment:" + Word(call.assignment).value));
    if call.event == GATE_GO_REFERENCED {
      var c := call.completion.value;
      var gated := Adjoin(handed, Plain("full-plan-gate:" + c.gateRef));
      AdjoinExtends(handed, Plain("full-plan-gate:" + c.gateRef));
      AdjoinExtends(gated, Plain("full-plan-fanin:" + c.faninRef));
      AdjoinExtends(Adjoin(gated, Plain("full-plan-fanin:" + c.faninRef)), Sealed(c));
    }
  }

  /** What one call does to a loading store, crash or no crash. */
  lemma {:induction false} CallOutcome(id: Identity, disk: Disk, call: Call, after: Disk)
    requires CallStep(id, disk, call, after)
    requires Load(id, after).Some?
    ensures Load(id, disk).Some?
    ensures var s, s' := Load(id, disk).value, Load(id, after).value;
            s' == s ||
            (&& s'.plan == s.plan && s'.baseline == s.baseline && s.refs <= s'.refs
             && NextState(s.state, call.event) == Some(s'.state) && RefsFor(s.refs, call).Some?
             && s'.revision == s.revision + 1 && s'.refs == NormalRefs(RefsFor(s.refs, call).value)
             && s'.pendingApproval == s.pendingApproval && s'.pendingManual == s.pendingManual
             && SealedIn(s'.refs) == SealedIn(s.refs) + if call.event == GATE_GO_REFERENCED then {call.completion.value} else {})
  {
    hide MakeSnapshot, MakeTransition, ReadJournal, Load, NormalRefs, Commits;
    var issued := Issued(id, disk, call);
    if issued.Some? {
      var cmd := issued.value;
      CrashOutcomes(id, disk, cmd, after);
      if Load(id, after) != Load(id, disk) {
        PlannedAdvance(id, disk, cmd);
        var s := Load(id, disk).value;
        RefsForExtends(s.refs, call);
        PlannedRefs(id, disk, cmd);
      }
    }
  }

  lemma {:induction false} PlannedRefs(id: Identity, disk: Disk, cmd: Command)
    requires cmd.Advance? && cmd.refs.Some? && Planned(id, disk, cmd).Some?
    requires Load(id, disk).value.refs <= cmd.refs.value
    ensures Load(id, disk).value.refs <= Planned(id, disk, cmd).value.refs
    ensures SealedIn(Planned(id, disk, cmd).value.refs) == SealedIn(cmd.refs.value)
  {
    hide SnapshotOk, MakeTransition, ReadJournal, NormalRefs, SealedIn, Strip;
    LoadedIsNormal(id, disk);
    var old', new' := Load(id, disk).value.refs, cmd.refs.value;
    assert new' == old' + new'[|old'|..];
    NormalRefsPrefix(old', new'[|old'|..]);
    NormalRefsSealed(new');
  }

  /** The run invariant of a snapshot the run can load. */
  ghost predicate Lawful(s: Snapshot, first: Snapshot) {
    && s.plan == first.plan && s.baseline == first.baseline
    && if s.state == COMPLETE then exists c :: SealedIn(s.refs) == {c} else SealedIn(s.refs) == {}
  }

  lemma {:induction false} FirstSnapshot(id: Identity, plan: string, baseline: string, disks: seq<Disk>, calls: seq<Call>)
    requires Run(id, plan, baseline, disks, calls)
    ensures Load(id, disks[0]).Some?
    ensures var s := Load(id, disks[0]).value;
            s.state == NEW && s.revision == 0 && s.refs == [] && s.plan == Strip(plan) && s.baseline == Strip(baseline) && Lawful(s, s)
            && s.pendingApproval == "" && s.pendingManual == ""
  {
    hide Load;
    CommittedLoads(id, Disk(None, None), Initialize(plan, baseline, NEW, true));
  }

  /** Every earlier disk of a loading disk loads, and the invariant holds at each of them. */
  lemma {:induction false} RunIsLawful(id: Identity, plan: string, baseline: string, disks: seq<Disk>, calls: seq<Call>, j: nat)
    requires Run(id, plan, baseline, disks, calls) && j < |disks| && Load(id, disks[j]).Some?
    ensures Load(id, disks[0]).Some? && Lawful(Load(id, disks[j]).value, Load(id, disks[0]).value)
    decreases j
  {
    hide Load, NextState, RefsFor, CallStep, Lawful, SealedIn, Planned, AfterLastWrite;
    FirstSnapshot(id, plan, baseline, disks, calls);
    if j > 0 {
      CallOutcome(id, disks[j - 1], calls[j - 1], disks[j]);
      RunIsLawful(id, plan, baseline, disks, calls, j - 1);
      StepIsLawful(Load(id, disks[j - 1]).value, calls[j - 1], Load(id, disks[j]).value, Load(id, disks[0]).value);
    }
  }

  lemma {:induction false} StepIsLawful(s: Snapshot, call: Call, s': Snapshot, first: Snapshot)
    requires Lawful(s, first)
    requires s' == s ||
             (&& s'.plan == s.plan && s'.baseline == s.baseline && s.refs <= s'.refs
              && NextState(s.state, call.event) == Some(s'.state) && RefsFor(s.refs, call).Some?
              && SealedIn(s'.refs) == SealedIn(s.refs) + if call.event == GATE_GO_REFERENCED then {call.completion.value} else {})
    ensures Lawful(s', first)
    ensures s' != s ==> Stage(s.state) <= Stage(s'.state)
    ensures s' != s && call.event == FULL_PLAN_HANDOFF_REFERENCED ==> Stage(s.state) == 2 && Stage(s'.state) == 3
    ensures s' != s && s'.state == COMPLETE ==> call.event == GATE_GO_REFERENCED && SealedIn(s'.refs) == {call.completion.value}
    ensures s' != s ==> s.state != COMPLETE
    ensures s' != s && call.assignment != "" ==> call.event == FULL_PLAN_HANDOFF_REFERENCED
  {
    if s' != s && call.event == GATE_GO_REFERENCED {
      assert SealedIn(s'.refs) == {call.completion.value};
    }
  }

  /**
   Over every coordinator-driven run: the approved plan and baseline never change and the workflow
   refs only grow, between any two moments at which the store loads.
   */
  lemma {:induction false} PlanFixedRefsGrow(id: Identity, plan: string, baseline: string, disks: seq<Disk>, calls: seq<Call>, i: nat, j: nat)
    requires Run(id, plan, baseline, disks, calls) && i <= j < |disks| && Load(id, disks[j]).Some?
    ensures Load(id, disks[i]).Some?
    ensures var s, s' := Load(id, disks[i]).value, Load(id, disks[j]).value;
            && s.plan == s'.plan == Strip(plan) && s.baseline == s'.baseline == Strip(baseline)
            && s.refs <= s'.refs && !HasDuplicate(s'.refs) && Stage(s.state) <= Stage(s'.state)
    decreases j
  {
    hide Load, NextState, RefsFor, CrashPoints, MakeSnapshot, HasDuplicate;
    FirstSnapshot(id, plan, baseline, disks, calls);
    RunIsLawful(id, plan, baseline, disks, calls, j);
    LoadedRefsDistinct(id, disks[j]);
    if i < j {
      CallOutcome(id, disks[j - 1], calls[j - 1], disks[j]);
      RunIsLawful(id, plan, baseline, disks, calls, j - 1);
      StepIsLawful(Load(id, disks[j - 1]).value, calls[j - 1], Load(id, disks[j]).value, Load(id, disks[0]).value);
      PlanFixedRefsGrow(id, plan, baseline, disks, calls, i, j - 1);
    }
  }

  lemma {:induction false} LoadedRefsDistinct(id: Identity, disk: Disk)
    requires Load(id, disk).Some?
    ensures !HasDuplicate(Load(id, disk).value.refs)
  {
    hide ReadJournal;
    LoadedIsNormal(id, disk);
  }

  /** The Full Plan handoff takes effect at most once, and only that call can carry an assignment ref. */
  lemma {:induction false} HandoffAtMostOnce(id: Identity, plan: string, baseline: string, disks: seq<Disk>, calls: seq<Call>, i: nat, j: nat)
    requires Run(id, plan, baseline, disks, calls) && i < |calls| && j < |calls|
    requires TookEffect(id, disks, i) && TookEffect(id, disks, j)
    ensures calls[i].assignment != "" ==> calls[i].event == FULL_PLAN_HANDOFF_REFERENCED
    ensures calls[i].event == calls[j].event == FULL_PLAN_HANDOFF_REFERENCED ==> i == j
  {
    hide Load, NextState, RefsFor, CallStep, Planned, AfterLastWrite, SealedIn;
    StepAt(id, plan, baseline, disks, calls, i);
    StepAt(id, plan, baseline, disks, calls, j);
    if i < j {
      PlanFixedRefsGrow(id, plan, baseline, disks, calls, i + 1, j);
    } else if j < i {
      PlanFixedRefsGrow(id, plan, baseline, disks, calls, j + 1, i);
    }
  }

  /** The effect of call `i`, as `StepIsLawful` describes it. */
  lemma {:induction false} StepAt(id: Identity, plan: string, baseline: string, disks: seq<Disk>, calls: seq<Call>, i: nat)
    requires Run(id, plan, baseline, disks, calls) && i < |calls| && TookEffect(id, disks, i)
    ensures var s, s' := Load(id, disks[i]).value, Load(id, disks[i + 1]).value;
            && (calls[i].event == FULL_PLAN_HANDOFF_REFERENCED ==> Stage(s.state) == 2 && Stage(s'.state) == 3)
            && (s'.state == COMPLETE ==> calls[i].event == GATE_GO_REFERENCED && calls[i].completion.Some? && SealedIn(s'.refs) == {calls[i].completion.value})
            && s.state != COMPLETE
            && (calls[i].assignment != "" ==> calls[i].event == FULL_PLAN_HANDOFF_REFERENCED)
  {
    hide Load, NextState, CrashPoints;
    CallOutcome(id, disks[i], calls[i], disks[i + 1]);
    RunIsLawful(id, plan, baseline, disks, calls, i);
    StepIsLawful(Load(id, disks[i]).value, calls[i], Load(id, disks[i + 1]).value, Load(id, disks[0]).value);
  }

  /** The call that closed a completed run: the gate call whose completion is the only one on record. */
  lemma {:induction false} ClosingCall(id: Identity, plan: string, baseline: string, disks: seq<Disk>, calls: seq<Call>, j: nat) returns (i: nat)
    requires Run(id, plan, baseline, disks, calls) && j < |disks|
    requires Load(id, disks[j]).Some? && Load(id, disks[j]).value.state == COMPLETE
    ensures i < j && TookEffect(id, disks, i)
    ensures calls[i].event == GATE_GO_REFERENCED && calls[i].completion.Some?
    ensures SealedIn(Load(id, disks[j]).value.refs) == {calls[i].completion.value}
    decreases j
  {
    hide Load, NextState, RefsFor, CallStep, Planned, AfterLastWrite, SealedIn;
    FirstSnapshot(id, plan, baseline, disks, calls);
    CallOutcome(id, disks[j - 1], calls[j - 1], disks[j]);
    if Load(id, disks[j - 1]) == Load(id, disks[j]) {
      i := ClosingCall(id, plan, baseline, disks, calls, j - 1);
    } else {
      i := j - 1;
      StepAt(id, plan, baseline, disks, calls, i);
    }
  }

  // ---- The report ----

  function ReportText(value: string, allowEmpty: bool): Option<string> {
    var item := Strip(value);
    if (item == "" && !allowEmpty) || |item| > 512 then None else Some(item)
  }

  function ReportRefs(values: seq<string>): Option<set<string>> {
    if values == [] then Some({})
    else
      match (ReportText(values[0], false), ReportRefs(values[1..]))
      case (Some(first), Some(rest)) => Some({first} + rest)
      case _ => None
  }

  datatype Report = Report(
    project: string, run: string, state: WorkflowState, revision: int, pendingApproval: string, pendingManual: string,
    observationCount: nat, recoveryCount: nat, hasPendingApproval: bool, hasPendingManual: bool,
    assignment: string, fanin: string, completion: Option<Completion>, observations: set<string>, recoveries: set<string>)

  /** `build_office_report`; None when it raises. Sorted reference tuples are kept as sets. */
  function BuildReport(s: Snapshot, assignment: string, completion: Option<Completion>, observed: seq<string>, recovered: seq<string>): Option<Report> {
    var observations, recoveries := ReportRefs(observed), ReportRefs(recovered);
    var project, run := ReportText(s.project, false), ReportText(s.run, false);
    var approval, manual := ReportText(s.pendingApproval, true), ReportText(s.pendingManual, true);
    var external := ReportText(assignment, true);
    var fanin := if completion.None? then Some("") else ReportText(completion.value.faninRef, true);
    if observations.None? || recoveries.None? then None
    else if completion.Some? && Sealed(completion.value) !in s.refs then None
    else if s.state == COMPLETE && completion.None? then None
    else if project.None? || run.None? || s.revision < 0 || approval.None? || manual.None? || external.None? || fanin.None? then None
    else Some(Report(project.value, run.value, s.state, s.revision, approval.value, manual.value,
                     |observations.value|, |recoveries.value|, s.pendingApproval != "", s.pendingManual != "",
                     external.value, fanin.value, completion, observations.value, recoveries.value))
  }

  /**
   A completed run reports exactly its closing completion: with acceptable references the builder
   takes that completion and no other, and refuses to report without one.
   */
  lemma {:induction false} ReportAcceptsExactlyClosing(id: Identity, plan: string, baseline: string, disks: seq<Disk>, calls: seq<Call>, j: nat,
                                    assignment: string, completion: Option<Completion>, observed: seq<string>, recovered: seq<string>)
    returns (closing: nat)
    requires Run(id, plan, baseline, disks, calls) && j < |disks|
    requires Load(id, disks[j]).Some? && Load(id, disks[j]).value.state == COMPLETE
    requires ReportText(assignment, true).Some? && ReportRefs(observed).Some? && ReportRefs(recovered).Some?
    requires forall i :: 0 <= i < |calls| && calls[i].completion.Some? ==> ValidCompletion(calls[i].completion.value)
    ensures closing < j && TookEffect(id, disks, closing) && calls[closing].event == GATE_GO_REFERENCED
    ensures BuildReport(Load(id, disks[j]).value, assignment, completion, observed, recovered).Some?
            <==> completion.Some? && completion == calls[closing].completion
  {
    hide Load, MakeSnapshot, NextState, RefsFor, CrashPoints;
    closing := ClosingCall(id, plan, baseline, disks, calls, j);
    LoadedTexts(id, disks[j]);
    var s := Load(id, disks[j]).value;
    assert forall c :: c in SealedIn(s.refs) <==> Sealed(c) in s.refs;
  }

  /** The report's text checks accept every snapshot the store can load. */
  lemma {:induction false} LoadedTexts(id: Identity, disk: Disk)
    requires Load(id, disk).Some?
    ensures var s := Load(id, disk).value;
            && ReportText(s.project, false).Some? && ReportText(s.run, false).Some? && s.revision >= 0
            && ReportText(s.pendingApproval, true).Some? && ReportText(s.pendingManual, true).Some?
  {
    hide ReadJournal;
    LoadedIsNormal(id, disk);
  }

  // ---- The coordinator ----

  datatype OfficeRun = OfficeRun(run: string, state: WorkflowState, revision: int, assignment: string, fanin: string)

  /** The text behind the last plain ref that carries `tag`, or "". */
  function LastTagged(refs: seq<Ref>, tag: string): string {
    if refs == [] then ""
    else
      var ref := refs[|refs| - 1];
      if ref.Plain? && StartsWith(ref.text, tag) then ref.text[|tag|..] else LastTagged(refs[..|refs| - 1], tag)
  }

  function OfficeRunOf(s: Snapshot): OfficeRun {
    OfficeRun(s.run, s.state, s.revision, Strip(LastTagged(s.refs, "full-plan-assignment:")), Strip(LastTagged(s.refs, "full-plan-fanin:")))
  }

  class WorkflowCoordinator {
    const store: AIOfficeStateStore

    constructor (store: AIOfficeStateStore)
      ensures this.store == store
    {
      this.store := store;
    }

    /**
     One coordinator call is one step of a run. It reports the snapshot the store committed; an error
     leaves the store alone, unless a text with a line separator was written, and then nothing loads.
     */
    method Transition(call: Call) returns (r: Option<OfficeRun>)
      modifies store`journal, store`snapshot, store`trail
      ensures CallStep(store.id, old(store.OnDisk()), call, store.OnDisk())
      ensures r.Some? <==> old(CallPlans(store.id, store.OnDisk(), call) && CallCommits(store.id, store.OnDisk(), call))
      ensures r.Some? ==> && Load(store.id, store.OnDisk()).Some? && r.value == OfficeRunOf(Load(store.id, store.OnDisk()).value)
                          && Load(store.id, store.OnDisk()) != old(Load(store.id, store.OnDisk()))
      ensures r.None? && !old(CallPlans(store.id, store.OnDisk(), call)) ==> store.OnDisk() == old(store.OnDisk())
      ensures r.None? && old(CallPlans(store.id, store.OnDisk(), call)) ==> Load(store.id, store.OnDisk()).None?
    {
      hide MakeSnapshot, MakeTransition, ReadJournal, Commits;
      var current := store.LoadCurrent();
      if current.None? { return None; }
      var target := NextState(current.value.state, call.event);
      var refs := RefsFor(current.value.refs, call);
      if target.None? || refs.None? { return None; }
      var cmd := Advance(target.value, call.reason, refs, None, None, call.encodable);
      assert Issued(store.id, store.OnDisk(), call) == Some(cmd);
      if Planned(store.id, store.OnDisk(), cmd).Some? {
        PlannedAdvance(store.id, store.OnDisk(), cmd);
      }
      var updated := store.AdvanceTo(cmd);
      if updated.None? { return None; }
      return Some(OfficeRunOf(updated.value));
    }
  }
}
