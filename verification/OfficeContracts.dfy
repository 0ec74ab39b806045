/** AI Office state records: validation on construction, and ideal digests over the validated record. */
module OfficeContracts {
  import opened Common
  import opened Text

  datatype WorkflowState =
    | NEW | INTAKE_READY | INTAKE_BLOCKED | CONTEXT_READY | SOURCE_BINDING_BLOCKED | PLAN_COORDINATED
    | PLAN_HANDOFF_BLOCKED | EXECUTION_PENDING | WAITING_APPROVAL | WAITING_STATE_CHANGE_AUTHORITY
    | EXECUTION_IN_PROGRESS | REVIEW_PENDING | RECOVERY_COORDINATION | COMPLETE | BLOCKED | FAILED
    | Undeclared(name: string)

  datatype Completion = Completion(
    fullPlanRunId: string, gateId: string, gateRef: string, gateDigest: string, faninRef: string, faninDigest: string)

  /** A workflow ref: plain text, or "full-plan-completion:" followed by the digest of a completion. */
  datatype Ref = Plain(text: string) | Sealed(completion: Completion)

  datatype Snapshot = Snapshot(
    project: string, run: string, revision: int, state: WorkflowState, plan: string, baseline: string,
    refs: seq<Ref>, pendingApproval: string, pendingManual: string, lastTransition: Digest)

  datatype Transition = Transition(
    project: string, run: string, sequence: int, fromRevision: int, toRevision: int,
    fromState: WorkflowState, toState: WorkflowState, reason: string, previous: Digest)

  /** The part of a journal record that its digest covers, exactly as stored. */
  datatype RecordBody = RecordBody(
    transition: Transition, transitionDigest: Digest, snapshot: Snapshot, snapshotDigest: Digest, previous: Digest)

  /** SHA-256 of a canonical JSON object as a free constructor: injective, never empty, never cyclic. */
  datatype Digest = NoDigest | OfTransition(t: Transition) | OfSnapshot(s: Snapshot) | OfRecord(body: RecordBody)

  predicate HasLineOrNul(s: string) {
    s != [] && (s[0] == '\n' || s[0] == '\r' || s[0] == '\0' || HasLineOrNul(s[1..]))
  }

  lemma {:induction false} HasLineOrNulExactly(s: string)
    ensures HasLineOrNul(s) <==> exists i :: 0 <= i < |s| && (s[i] == '\n' || s[i] == '\r' || s[i] == '\0')
  {
    if s != [] {
      HasLineOrNulExactly(s[1..]);
      assert forall i :: 1 <= i < |s| ==> s[i] == s[1..][i - 1];
    }
  }

  /** `_text` accepts the value; what it returns is the stripped value. */
  predicate TextOk(value: string, maxLength: nat, allowEmpty: bool) {
    var item := Strip(value);
    (item != "" || allowEmpty) && |item| <= maxLength && !HasLineOrNul(item)
  }

  predicate UnsafePath(s: string) {
    s != [] && (s[0] == '/' || s[0] == '\\' || (|s| > 1 && s[0] == '.' && s[1] == '.') || UnsafePath(s[1..]))
  }

  lemma {:induction false} UnsafePathExactly(s: string)
    ensures UnsafePath(s) <==> '/' in s || '\\' in s || exists i :: 0 < i < |s| && s[i - 1] == '.' && s[i] == '.'
  {
    if s != [] {
      UnsafePathExactly(s[1..]);
      assert s == [s[0]] + s[1..];
      assert forall i :: 1 <= i < |s| ==> s[i] == s[1..][i - 1];
      if i :| 0 < i < |s[1..]| && s[1..][i - 1] == '.' && s[1..][i] == '.' {
        assert s[i] == '.' && s[i + 1] == '.';
      }
    }
  }

  /** `_identity` accepts the value. */
  predicate IdentityOk(value: string) {
    TextOk(value, 160, false) && !UnsafePath(Strip(value))
  }

  function NormalRef(ref: Ref): Ref {
    if ref.Plain? then Plain(Strip(ref.text)) else ref
  }

  function NormalRefs(refs: seq<Ref>): seq<Ref> {
    if refs == [] then [] else NormalRefs(refs[..|refs| - 1]) + [NormalRef(refs[|refs| - 1])]
  }

  predicate RefsOk(refs: seq<Ref>) {
    refs == [] || (RefsOk(refs[..|refs| - 1]) && (refs[|refs| - 1].Plain? ==> TextOk(refs[|refs| - 1].text, 512, false)))
  }

  predicate SnapshotOk(s: Snapshot) {
    && IdentityOk(s.project) && IdentityOk(s.run) && s.revision >= 0 && !s.state.Undeclared?
    && TextOk(s.plan, 512, false) && TextOk(s.baseline, 512, false)
    && RefsOk(s.refs) && !HasDuplicate(NormalRefs(s.refs))
    && TextOk(s.pendingApproval, 512, true) && TextOk(s.pendingManual, 512, true)
  }

  function NormalSnapshot(s: Snapshot): Snapshot {
    s.(project := Strip(s.project), run := Strip(s.run), plan := Strip(s.plan), baseline := Strip(s.baseline),
       refs := NormalRefs(s.refs), pendingApproval := Strip(s.pendingApproval), pendingManual := Strip(s.pendingManual))
  }

  /** The `OfficeStateSnapshotV1` constructor: the normalised snapshot, or None when it raises. */
  function MakeSnapshot(s: Snapshot): Option<Snapshot> {
    if SnapshotOk(s) then Some(NormalSnapshot(s)) else None
  }

  predicate TransitionOk(t: Transition) {
    && IdentityOk(t.project) && IdentityOk(t.run)
    && t.sequence >= 1 && t.fromRevision >= 0 && t.toRevision == t.fromRevision + 1 && t.sequence == t.toRevision
    && !t.fromState.Undeclared? && !t.toState.Undeclared? && TextOk(t.reason, 512, false)
  }

  /** The `OfficeStateTransitionV1` constructor. */
  function MakeTransition(t: Transition): Option<Transition> {
    if TransitionOk(t) then Some(t.(project := Strip(t.project), run := Strip(t.run), reason := Strip(t.reason))) else None
  }

  /** A text a record keeps: something is left after stripping, at most `n` characters on one line without NUL. */
  ghost predicate Keeps(value: string, n: nat) {
    Strip(value) != "" && |Strip(value)| <= n && '\n' !in Strip(value) && '\r' !in Strip(value) && '\0' !in Strip(value)
  }

  /** A kept text of at most 160 characters that is no path. */
  ghost predicate Names(value: string) {
    && Keeps(value, 160) && '/' !in Strip(value) && '\\' !in Strip(value)
    && forall i :: 0 < i < |Strip(value)| ==> Strip(value)[i - 1] != '.' || Strip(value)[i] != '.'
  }

  lemma {:induction false} TextsExactly(value: string, n: nat)
    ensures TextOk(value, n, false) <==> Keeps(value, n)
    ensures TextOk(value, n, true) <==> Strip(value) == "" || Keeps(value, n)
    ensures IdentityOk(value) <==> Names(value)
  {
    hide Strip;
    HasLineOrNulExactly(Strip(value));
    UnsafePathExactly(Strip(value));
  }

  lemma {:induction false} RefsOkExactly(refs: seq<Ref>)
    ensures RefsOk(refs) <==> forall i :: 0 <= i < |refs| && refs[i].Plain? ==> Keeps(refs[i].text, 512)
    ensures |NormalRefs(refs)| == |refs| && forall i :: 0 <= i < |refs| ==> NormalRefs(refs)[i] == NormalRef(refs[i])
  {
    if refs != [] {
      hide TextOk, Keeps, Strip;
      RefsOkExactly(refs[..|refs| - 1]);
      if refs[|refs| - 1].Plain? { TextsExactly(refs[|refs| - 1].text, 512); }
    }
  }

  /** Refs that a record keeps: texts on one line, no two alike once stripped. */
  ghost predicate KeepsRefs(refs: seq<Ref>) {
    && (forall i :: 0 <= i < |refs| && refs[i].Plain? ==> Keeps(refs[i].text, 512))
    && forall i, j :: 0 <= i < j < |refs| ==> NormalRef(refs[i]) != NormalRef(refs[j])
  }

  /** What the snapshot constructor accepts. */
  lemma {:induction false} SnapshotExactly(s: Snapshot)
    ensures MakeSnapshot(s).Some? <==>
            && Names(s.project) && Names(s.run) && s.revision >= 0 && !s.state.Undeclared? && Keeps(s.plan, 512) && Keeps(s.baseline, 512)
            && KeepsRefs(s.refs)
            && (Strip(s.pendingApproval) == "" || Keeps(s.pendingApproval, 512)) && (Strip(s.pendingManual) == "" || Keeps(s.pendingManual, 512))
  {
    hide TextOk, Keeps, IdentityOk, Names, Strip, NormalRef, NormalRefs, RefsOk, HasDuplicate;
    TextsExactly(s.project, 160);
    TextsExactly(s.run, 160);
    TextsExactly(s.plan, 512);
    TextsExactly(s.baseline, 512);
    TextsExactly(s.pendingApproval, 512);
    TextsExactly(s.pendingManual, 512);
    RefsOkExactly(s.refs);
    HasDuplicateExactly(NormalRefs(s.refs));
    assert Distinct(NormalRefs(s.refs)) <==> forall i, j :: 0 <= i < j < |s.refs| ==> NormalRef(s.refs[i]) != NormalRef(s.refs[j]);
  }

  /** What the transition constructor accepts. */
  lemma {:induction false} TransitionExactly(t: Transition)
    ensures MakeTransition(t).Some? <==>
            && Names(t.project) && Names(t.run) && t.fromRevision >= 0 && t.sequence == t.toRevision == t.fromRevision + 1
            && !t.fromState.Undeclared? && !t.toState.Undeclared? && Keeps(t.reason, 512)
  {
    hide TextOk, Keeps, IdentityOk, Names, Strip;
    TextsExactly(t.project, 160);
    TextsExactly(t.run, 160);
    TextsExactly(t.reason, 512);
  }

  lemma {:induction false} NormalRefsAgain(refs: seq<Ref>)
    ensures NormalRefs(NormalRefs(refs)) == NormalRefs(refs) && (RefsOk(refs) ==> RefsOk(NormalRefs(refs)))
  {
    if refs != [] {
      var init, last := refs[..|refs| - 1], refs[|refs| - 1];
      NormalRefsAgain(init);
      if last.Plain? { StripTrims(last.text); }
      assert (NormalRefs(init) + [NormalRef(last)])[..|NormalRefs(init)|] == NormalRefs(init);
    }
  }

  /** Constructing from a constructed record changes nothing, so what is written is what is read back. */
  lemma {:induction false} MakeSnapshotAgain(s: Snapshot)
    requires MakeSnapshot(s).Some?
    ensures MakeSnapshot(MakeSnapshot(s).value) == MakeSnapshot(s)
  {
    hide Strip;
    StripTrims(s.project);
    StripTrims(s.run);
    StripTrims(s.plan);
    StripTrims(s.baseline);
    StripTrims(s.pendingApproval);
    StripTrims(s.pendingManual);
    NormalRefsAgain(s.refs);
  }

  lemma {:induction false} MakeTransitionAgain(t: Transition)
    requires MakeTransition(t).Some?
    ensures MakeTransition(MakeTransition(t).value) == MakeTransition(t)
  {
    hide Strip;
    StripTrims(t.project);
    StripTrims(t.run);
    StripTrims(t.reason);
  }
}
