/** What a gate decision means in terms of the records it is made from, and what its digest commits to. */
module GateDecisions {
  import opened Common
  import opened Order
  import opened Qualification
  import opened QualificationAgreement

  // ---- The gate policies by id ----

  predicate NeedsEvidence(gate: nat, id: nat) {
    match gate
    case 1 => 1 <= id <= 3
    case 2 => 1 <= id <= 8
    case 3 => 1 <= id <= 13 || id == 16
    case 4 => id == 4 || id == 7 || 11 <= id <= 14 || id == 16
    case 5 => id == 13 || 15 <= id <= 18 || id == 21
    case 6 => 1 <= id <= 21
    case _ => false
  }

  /** Official names 0 to 4 belong to gate 2, 5 to gate 3, 6, 7, 9 and 10 to gate 4, all twelve to gates 5 and 6. */
  predicate NeedsOfficial(gate: nat, name: nat) {
    match gate
    case 2 => name <= 4
    case 3 => name == 5
    case 4 => name == 6 || name == 7 || name == 9 || name == 10
    case 5 => name <= 11
    case 6 => name <= 11
    case _ => false
  }

  /** The policy tables: required evidence without repetition, official names, and all earlier gates as prerequisites. */
  lemma {:induction false} PoliciesExactly(gate: nat)
    requires 1 <= gate <= 6
    ensures forall id: nat :: id in Required(gate) <==> NeedsEvidence(gate, id)
    ensures forall name: nat :: name in OfficialFor(gate) <==> NeedsOfficial(gate, name)
    ensures forall g: nat :: g in Prerequisites(gate) <==> 1 <= g < gate
  {
    if gate == 1 {
    } else if gate == 2 {
    } else if gate == 3 {
    } else if gate == 4 {
    } else if gate == 5 {
    } else {
      assert gate == 6;
    }
  }

  // ---- Support by records ----

  /** The recorded digest is the present one. */
  predicate IsCurrent(digests: map<string, string>, key: string, digest: string) {
    key in digests && digests[key] == digest
  }

  /** The result a ref names: it is bound to the ref and to the evidence, and it passed. */
  ghost predicate Bound(x: Inputs, e: Evidence, ref: ResultRef) {
    && ref.path in x.results
    && var r := x.results[ref.path];
       && r.digest == ref.digest && r.body.verdict == PASS && r.body.project == e.body.project && r.body.run == e.body.run
       && r.body.testId == ref.testId && r.body.attempt == ref.attempt && r.body.consumer == ref.consumer
  }

  /** A sealed result record: its digest covers it, and its source files are listed in strict path order. */
  ghost predicate SealedResult(r: ValidationResult) {
    && r.digest == OfResult(r.body) && r.body.wellFormed && r.body.attempt >= 1 && !r.body.verdict.UndeclaredVerdict?
    && forall i :: 0 < i < |r.body.files| ==> Less(r.body.files[i - 1].path, r.body.files[i].path)
  }

  /** Nothing the result was computed from has changed. */
  ghost predicate UpToDate(x: Inputs, r: ValidationResult) {
    && (forall i :: 0 <= i < |r.body.files| ==> IsCurrent(x.files, r.body.files[i].path, r.body.files[i].sha))
    && (forall i :: 0 <= i < |r.body.artifacts| ==> IsCurrent(x.artifacts, r.body.artifacts[i].ref, r.body.artifacts[i].digest))
  }

  ghost predicate Backed(x: Inputs, e: Evidence, ref: ResultRef) {
    Bound(x, e, ref) && SealedResult(x.results[ref.path]) && UpToDate(x, x.results[ref.path])
  }

  /** A sealed evidence record: its digest covers it, and every test it names has a result. */
  ghost predicate SealedEvidence(e: Evidence) {
    && e.digest == OfEvidence(e.body) && e.body.wellFormed && !e.body.verdict.UndeclaredVerdict?
    && forall test :: test in e.body.testRefs ==> HasResult(e, test)
  }

  /** The index selects this very record under this id. */
  ghost predicate Selects(x: Inputs, id: nat, e: Evidence) {
    IndexEntry(id, e.digest) in x.index.body.entries
  }

  /** The evidence is there, selected, sealed and passing, and everything it rests on is current. */
  ghost predicate Supported(x: Inputs, id: nat) {
    && id in x.evidence
    && var e := x.evidence[id];
       && Selects(x, id, e) && SealedEvidence(e) && e.body.verdict == PASS
       && (forall i :: 0 <= i < |e.body.resultRefs| ==> Backed(x, e, e.body.resultRefs[i]))
       && (forall i :: 0 <= i < |e.body.artifacts| ==> IsCurrent(x.artifacts, e.body.artifacts[i].ref, e.body.artifacts[i].digest))
  }

  /** A sealed gate record. */
  ghost predicate SealedGate(g: Gate) {
    && g.digest == OfGate(g.body) && g.body.bindingOk && 1 <= g.body.gate <= 6 && !(g.body.gate == 6 && g.body.decision == CONDITIONAL_GO)
    && (forall name :: name in g.body.official ==> name <= 11 && g.body.official[name] != UndeclaredResult)
    && (g.body.gate >= 5 ==> forall name: nat :: name <= 11 ==> name in g.body.official)
  }

  /** Everything a GO decision asks for. */
  ghost predicate Proven(x: Inputs) {
    && (forall id: nat :: NeedsEvidence(x.gate, id) ==> Supported(x, id))
    && (forall g: nat :: 1 <= g < x.gate ==> g in x.prerequisites && x.prerequisites[g].body.decision == GO)
    && (forall name: nat :: NeedsOfficial(x.gate, name) ==> name in x.official && x.official[name] == Passed)
    && Blocker !in x.review.body.findings && Major !in x.review.body.findings
    && (x.workspace.Some? ==> x.workspace.value.unauthorizedChanges == 0)
  }

  /** The freshness scan meets a bound result that is no sealed record, before any ref that fails. */
  ghost predicate ScanRaises(x: Inputs, e: Evidence) {
    exists i :: 0 <= i < |e.body.resultRefs| && Bound(x, e, e.body.resultRefs[i]) && !SealedResult(x.results[e.body.resultRefs[i].path])
                && forall k :: 0 <= k < i ==> Backed(x, e, e.body.resultRefs[k])
  }

  /** A review whose counts are those of its findings. */
  ghost predicate SealedReview(v: Review) {
    && v.digest == OfReview(v.body) && v.body.wellFormed && Unresolved !in v.body.findings
    && v.body.blockers == multiset(v.body.findings)[Blocker] && v.body.majors == multiset(v.body.findings)[Major]
    && v.body.minors == multiset(v.body.findings)[Minor]
  }

  /** When a gate is decided at all: every record the evaluation validates is in order. */
  ghost predicate Answerable(x: Inputs) {
    && 1 <= x.gate <= 6 && x.bindingOk
    && x.index.digest == OfIndex(x.index.body) && x.index.body.wellFormed && DistinctBy(x.index.body.entries, EntryId)
    && SealedReview(x.review) && x.review.body.indexDigest == x.index.digest && x.review.body.gate == x.gate
    && (forall id: nat :: NeedsEvidence(x.gate, id) ==> exists i :: 0 <= i < |x.index.body.entries| && x.index.body.entries[i].id == id)
    && (forall id: nat :: NeedsEvidence(x.gate, id) && id in x.evidence ==>
          && SealedEvidence(x.evidence[id])
          && !(x.evidence[id].body.verdict == PASS && Selects(x, id, x.evidence[id]) && ScanRaises(x, x.evidence[id])))
    && (forall g: nat :: 1 <= g < x.gate && g in x.prerequisites ==> SealedGate(x.prerequisites[g]))
    && (forall name :: name in x.official ==> name <= 11 && x.official[name] != UndeclaredResult)
    && (x.gate >= 5 ==> forall name: nat :: name <= 11 ==> name in x.official)
    && (x.workspace.Some? ==> x.workspace.value.valid)
  }

  function EntryId(entry: IndexEntry): nat { entry.id }

  // ---- Evaluation meets these terms ----

  lemma {:induction false} SelectedExactly(entries: seq<IndexEntry>, id: nat)
    ensures SelectedIn(entries, id).Some? <==> exists i :: 0 <= i < |entries| && entries[i].id == id
    ensures DistinctBy(entries, EntryId) ==> forall d :: SelectedIn(entries, id) == Some(d) <==> IndexEntry(id, d) in entries
  {
    if entries != [] {
      SelectedExactly(entries[1..], id);
      assert entries == [entries[0]] + entries[1..];
      assert forall i :: 1 <= i < |entries| ==> entries[i] == entries[1..][i - 1];
      if DistinctBy(entries, EntryId) {
        forall i, j | 0 <= i < j < |entries[1..]|
          ensures EntryId(entries[1..][i]) != EntryId(entries[1..][j])
        {
          assert EntryId(entries[i + 1]) != EntryId(entries[j + 1]);
        }
        forall i | 0 <= i < |entries[1..]|
          ensures entries[1..][i].id != entries[0].id
        {
          assert EntryId(entries[0]) != EntryId(entries[i + 1]);
        }
      }
    }
  }

  lemma {:induction false} CountExactly(findings: seq<Severity>, s: Severity)
    ensures CountOf(findings, s) == multiset(findings)[s]
  {
    if findings != [] {
      CountExactly(findings[1..], s);
      assert findings == [findings[0]] + findings[1..];
    }
  }

  /** The validators, in these terms. */
  lemma {:induction false} ValidatorsExactly(x: Inputs)
    ensures ValidIndex(x.index) <==> x.index.digest == OfIndex(x.index.body) && x.index.body.wellFormed && DistinctBy(x.index.body.entries, EntryId)
    ensures ValidReview(x.review) <==> SealedReview(x.review)
    ensures SealedReview(x.review) ==>
              (x.review.body.blockers == 0 && x.review.body.majors == 0 <==> Blocker !in x.review.body.findings && Major !in x.review.body.findings)
  {
    CountExactly(x.review.body.findings, Blocker);
    CountExactly(x.review.body.findings, Major);
    CountExactly(x.review.body.findings, Minor);
    assert forall s :: s in x.review.body.findings <==> s in multiset(x.review.body.findings);
    var entries := x.index.body.entries;
    assert ValidIndex(x.index) ==> forall i, j :: 0 <= i < j < |entries| ==> EntryId(entries[i]) != EntryId(entries[j]);
  }

  lemma ResultExactly(x: Inputs, r: ValidationResult)
    ensures ResultFresh(r, x.files, x.artifacts) == if SealedResult(r) then Some(UpToDate(x, r)) else None
  {}

  lemma EvidenceSealed(e: Evidence)
    ensures ValidEvidence(e) <==> SealedEvidence(e)
  {}

  lemma {:induction false} GateSealed(g: Gate)
    ensures ValidGate(g) <==> SealedGate(g)
  {
    assert (forall name: nat :: name <= 11 ==> name in OfficialNames());
    if SealedGate(g) && g.body.gate >= 5 {
      assert forall name :: name in g.body.official <==> name in OfficialNames();
    }
  }

  /** The early-return scan from ref `i` on: it raises, fails or succeeds exactly as the records say. */
  lemma {:induction false} ScanExactly(x: Inputs, e: Evidence, i: nat)
    requires i <= |e.body.resultRefs|
    ensures RefsFresh(e, i, x.results, x.files, x.artifacts).None? <==>
            exists j :: i <= j < |e.body.resultRefs| && Bound(x, e, e.body.resultRefs[j]) && !SealedResult(x.results[e.body.resultRefs[j].path])
                        && forall k :: i <= k < j ==> Backed(x, e, e.body.resultRefs[k])
    ensures RefsFresh(e, i, x.results, x.files, x.artifacts) == Some(true) <==>
            forall k :: i <= k < |e.body.resultRefs| ==> Backed(x, e, e.body.resultRefs[k])
    decreases |e.body.resultRefs| - i
  {
    if i < |e.body.resultRefs| {
      var ref := e.body.resultRefs[i];
      ScanExactly(x, e, i + 1);
      ScanOne(x, e, ref);
      hide Backed, Bound, SealedResult, ResultFresh, Binds;
      if Backed(x, e, ref) {
        if j :| i + 1 <= j < |e.body.resultRefs| && Bound(x, e, e.body.resultRefs[j]) && !SealedResult(x.results[e.body.resultRefs[j].path])
                && forall k :: i + 1 <= k < j ==> Backed(x, e, e.body.resultRefs[k]) {
          assert forall k :: i <= k < j ==> Backed(x, e, e.body.resultRefs[k]);
        }
      } else if Bound(x, e, ref) && !SealedResult(x.results[ref.path]) {
        assert Bound(x, e, e.body.resultRefs[i]);
      }
    }
  }

  /** One ref of the scan, in these terms. */
  lemma {:induction false} ScanOne(x: Inputs, e: Evidence, ref: ResultRef)
    ensures (ref.path in x.results && Binds(ref, x.results[ref.path], e)) <==> Bound(x, e, ref)
    ensures Bound(x, e, ref) ==> ref.path in x.results && (ResultFresh(x.results[ref.path], x.files, x.artifacts).None? <==> !SealedResult(x.results[ref.path]))
    ensures Bound(x, e, ref) ==> (ResultFresh(x.results[ref.path], x.files, x.artifacts) == Some(true) <==> Backed(x, e, ref))
    ensures Backed(x, e, ref) ==> Bound(x, e, ref)
  {
    if ref.path in x.results { ResultExactly(x, x.results[ref.path]); }
    hide SealedResult, UpToDate, ResultFresh;
  }

  /** One required id: when its proof raises, and when it holds. */
  lemma {:induction false} ProofExactly(x: Inputs, id: nat)
    requires ValidIndex(x.index)
    ensures EvidenceProof(x, id) == Some(true) <==> Supported(x, id)
    ensures Selected(x.index, id).Some? && id in x.evidence ==>
              (EvidenceProof(x, id).None? <==>
               !SealedEvidence(x.evidence[id]) || (x.evidence[id].body.verdict == PASS && Selects(x, id, x.evidence[id]) && ScanRaises(x, x.evidence[id])))
    ensures Selected(x.index, id).None? || id !in x.evidence ==> EvidenceProof(x, id) == Some(false)
  {
    ValidatorsExactly(x);
    SelectedExactly(x.index.body.entries, id);
    if id in x.evidence {
      var e := x.evidence[id];
      EvidenceSealed(e);
      ScanExactly(x, e, 0);
      assert ArtifactsCurrent(e.body.artifacts, x.artifacts) <==>
             forall i :: 0 <= i < |e.body.artifacts| ==> IsCurrent(x.artifacts, e.body.artifacts[i].ref, e.body.artifacts[i].digest);
      hide ValidEvidence, SealedEvidence, RefsFresh, Backed, Bound, SealedResult, SelectedIn, ValidIndex, DistinctBy;
      assert Selected(x.index, id) == Some(e.digest) <==> Selects(x, id, e);
    }
  }

  lemma {:induction false} PrerequisitesExactly(x: Inputs, gates: seq<nat>)
    ensures PrerequisiteProofs(x, gates).None? <==> exists i :: 0 <= i < |gates| && gates[i] in x.prerequisites && !SealedGate(x.prerequisites[gates[i]])
    ensures PrerequisiteProofs(x, gates) == Some(true) <==>
            forall i :: 0 <= i < |gates| ==>
              gates[i] in x.prerequisites && SealedGate(x.prerequisites[gates[i]]) && x.prerequisites[gates[i]].body.decision == GO
  {
    if gates != [] {
      var init, last := gates[..|gates| - 1], gates[|gates| - 1];
      PrerequisitesExactly(x, init);
      if last in x.prerequisites { GateSealed(x.prerequisites[last]); }
      hide ValidGate, SealedGate;
      assert forall i :: 0 <= i < |init| ==> init[i] == gates[i];
      if i :| 0 <= i < |init| && init[i] in x.prerequisites && !SealedGate(x.prerequisites[init[i]]) {
        assert gates[i] == init[i];
      }
    }
  }

  lemma {:induction false} OthersExactly(x: Inputs)
    requires 1 <= x.gate <= 6 && ValidReview(x.review)
    requires forall name :: name in x.official ==> name <= 11
    ensures OtherProofs(x) <==>
            && (forall name: nat :: NeedsOfficial(x.gate, name) ==> name in x.official && x.official[name] == Passed)
            && Blocker !in x.review.body.findings && Major !in x.review.body.findings
            && (x.workspace.Some? ==> x.workspace.value.unauthorizedChanges == 0)
  {
    hide Required, Prerequisites, ValidIndex, ValidReview, NeedsOfficial, SealedReview;
    PoliciesExactly(x.gate);
    ValidatorsExactly(x);
    hide OfficialFor;
    var official := OfficialFor(x.gate);
    forall name: nat | name in official
      ensures exists i :: 0 <= i < |official| && official[i] == name
    {}
    if x.gate >= 5 && (forall name: nat :: NeedsOfficial(x.gate, name) ==> name in x.official) {
      AllOfficial(x.gate);
      assert forall name :: name in x.official <==> name in OfficialNames();
    }
  }

  lemma AllOfficial(gate: nat)
    requires 5 <= gate <= 6
    ensures forall name: nat :: NeedsOfficial(gate, name) <==> name <= 11
  {}

  lemma {:induction false} EarlierExactly(x: Inputs)
    requires 1 <= x.gate <= 6
    requires forall g: nat :: 1 <= g < x.gate && g in x.prerequisites ==> SealedGate(x.prerequisites[g])
    ensures PrerequisiteProofs(x, Prerequisites(x.gate)) == Some(true) <==>
            forall g: nat :: 1 <= g < x.gate ==> g in x.prerequisites && x.prerequisites[g].body.decision == GO
  {
    hide Required, OfficialFor, NeedsEvidence, NeedsOfficial, SealedGate, PrerequisiteProofs;
    PoliciesExactly(x.gate);
    hide Prerequisites;
    var earlier := Prerequisites(x.gate);
    PrerequisitesExactly(x, earlier);
    if PrerequisiteProofs(x, earlier) == Some(true) {
      forall g: nat | 1 <= g < x.gate
        ensures g in x.prerequisites && x.prerequisites[g].body.decision == GO
      {
        assert g in earlier;
        var i :| 0 <= i < |earlier| && earlier[i] == g;
      }
    }
    if forall g: nat :: 1 <= g < x.gate ==> g in x.prerequisites && x.prerequisites[g].body.decision == GO {
      forall i | 0 <= i < |earlier|
        ensures earlier[i] in x.prerequisites && SealedGate(x.prerequisites[earlier[i]]) && x.prerequisites[earlier[i]].body.decision == GO
      {
        assert earlier[i] in earlier;
      }
    }
  }

  /** The proof conditions of the evaluation, in these terms. */
  lemma {:induction false} ProvenExactly(x: Inputs)
    requires 1 <= x.gate <= 6 && ValidIndex(x.index) && ValidReview(x.review)
    requires forall name :: name in x.official ==> name <= 11
    requires forall g: nat :: 1 <= g < x.gate && g in x.prerequisites ==> SealedGate(x.prerequisites[g])
    ensures EvidenceProofs(x, Required(x.gate)) == Some(true) && PrerequisiteProofs(x, Prerequisites(x.gate)) == Some(true) && OtherProofs(x) <==>
            Proven(x)
  {
    hide EvidenceProof, Supported, SealedGate, ValidIndex, ValidReview, OtherProofs, NeedsEvidence, NeedsOfficial, PrerequisiteProofs, EvidenceProofs;
    PoliciesExactly(x.gate);
    hide Required, Prerequisites, OfficialFor;
    var ids := Required(x.gate);
    ProofsPointwise(x, ids);
    forall id: nat
      ensures EvidenceProof(x, id) == Some(true) <==> Supported(x, id)
    {
      ProofExactly(x, id);
    }
    assert EvidenceProofs(x, ids) == Some(true) <==> forall id: nat :: NeedsEvidence(x.gate, id) ==> Supported(x, id) by {
      assert forall i :: 0 <= i < |ids| ==> ids[i] in ids;
    }
    EarlierExactly(x);
    OthersExactly(x);
  }

  /** Whether anything raises in front of the sealed record, in these terms. */
  lemma {:induction false} ProofsAnswer(x: Inputs)
    requires 1 <= x.gate <= 6 && ValidIndex(x.index)
    requires forall id: nat :: NeedsEvidence(x.gate, id) ==> Selected(x.index, id).Some?
    ensures EvidenceProofs(x, Required(x.gate)).Some? <==>
            forall id: nat :: NeedsEvidence(x.gate, id) && id in x.evidence ==>
              && SealedEvidence(x.evidence[id])
              && !(x.evidence[id].body.verdict == PASS && Selects(x, id, x.evidence[id]) && ScanRaises(x, x.evidence[id]))
    ensures PrerequisiteProofs(x, Prerequisites(x.gate)).Some? <==>
            forall g: nat :: 1 <= g < x.gate && g in x.prerequisites ==> SealedGate(x.prerequisites[g])
  {
    hide EvidenceProof, SealedEvidence, ScanRaises, Selects, SealedGate, ValidIndex, NeedsEvidence, NeedsOfficial, PrerequisiteProofs, EvidenceProofs, Selected;
    PoliciesExactly(x.gate);
    hide Required, Prerequisites, OfficialFor;
    var ids, earlier := Required(x.gate), Prerequisites(x.gate);
    ProofsPointwise(x, ids);
    PrerequisitesExactly(x, earlier);
    forall id: nat | NeedsEvidence(x.gate, id)
      ensures id in ids
      ensures EvidenceProof(x, id).None? <==>
              id in x.evidence && (!SealedEvidence(x.evidence[id]) || (x.evidence[id].body.verdict == PASS && Selects(x, id, x.evidence[id]) && ScanRaises(x, x.evidence[id])))
    {
      ProofExactly(x, id);
    }
    assert forall i :: 0 <= i < |ids| ==> ids[i] in ids && NeedsEvidence(x.gate, ids[i]);
    assert forall id: nat :: NeedsEvidence(x.gate, id) ==> exists i :: 0 <= i < |ids| && ids[i] == id;
    assert forall i :: 0 <= i < |earlier| ==> earlier[i] in earlier && 1 <= earlier[i] < x.gate;
    forall g: nat | 1 <= g < x.gate && g in x.prerequisites && !SealedGate(x.prerequisites[g])
      ensures PrerequisiteProofs(x, earlier).None?
    {
      assert g in earlier;
      var i :| 0 <= i < |earlier| && earlier[i] == g;
    }
  }

  /** The binding of the sealed record to review and index. */
  lemma {:induction false} BindingExactly(x: Inputs, proofOk: bool)
    requires 1 <= x.gate <= 6 && ValidIndex(x.index) && ValidReview(x.review)
    ensures BoundGate(GateRecord(x, proofOk), x.review, x.index) <==>
            && x.bindingOk && x.review.body.indexDigest == x.index.digest && x.review.body.gate == x.gate
            && (forall name :: name in x.official ==> name <= 11 && x.official[name] != UndeclaredResult)
            && (x.gate >= 5 ==> forall name: nat :: name <= 11 ==> name in x.official)
            && (forall id: nat :: NeedsEvidence(x.gate, id) ==> Selected(x.index, id).Some?)
  {
    hide ValidGate, ValidIndex, ValidReview, Selected, NeedsOfficial, OfficialFor, OfficialNames, CompleteOfficial;
    PoliciesExactly(x.gate);
    hide Required, NeedsEvidence, Prerequisites;
    var g := GateRecord(x, proofOk);
    GateSealed(g);
    var ids := Required(x.gate);
    assert forall i :: 0 <= i < |ids| ==> ids[i] in ids;
    assert (forall i :: 0 <= i < |ids| ==> Selected(x.index, ids[i]).Some?) <==>
           (forall id: nat :: NeedsEvidence(x.gate, id) ==> Selected(x.index, id).Some?);
  }

  /** A gate is decided, and does not raise, exactly when every record it validates is in order. */
  lemma {:induction false} AnswersExactly(x: Inputs)
    ensures Evaluate(x).Some? <==> Answerable(x)
  {
    ValidatorsExactly(x);
    if 1 <= x.gate <= 6 && ValidIndex(x.index) && ValidReview(x.review) {
      BindingExactly(x, false);
      BindingExactly(x, true);
      forall id: nat
        ensures Selected(x.index, id).Some? <==> exists i :: 0 <= i < |x.index.body.entries| && x.index.body.entries[i].id == id
      {
        SelectedExactly(x.index.body.entries, id);
      }
      if forall id: nat :: NeedsEvidence(x.gate, id) ==> Selected(x.index, id).Some? {
        ProofsAnswer(x);
      }
      hide EvidenceProofs, PrerequisiteProofs, OtherProofs, NeedsEvidence, NeedsOfficial, SealedEvidence, ScanRaises, Selects, SealedReview, SealedGate,
        DistinctBy, ValidIndex, ValidReview, BoundGate, Required, Prerequisites, OfficialFor, Selected, GateRecord;
    }
  }

  /** The decision of a gate that is decided, in terms of the records alone. */
  lemma {:induction false} DecisionExactly(x: Inputs)
    requires Evaluate(x).Some?
    ensures var decision := Evaluate(x).value.body.decision;
            && (decision == GO <==> Proven(x) && !x.remediationPending)
            && (decision == CONDITIONAL_GO <==> Proven(x) && x.remediationPending && x.gate != 6)
            && (decision == NO_GO <==> !Proven(x) || (x.remediationPending && x.gate == 6))
  {
    AnswersExactly(x);
    ProvenExactly(x);
    hide Proven, EvidenceProofs, PrerequisiteProofs, OtherProofs, BoundGate, Required, Prerequisites, ValidIndex, ValidReview;
  }

  /** What the sealed record says: it repeats the gate's inputs and its digest covers all of it. */
  lemma {:induction false} RecordExactly(x: Inputs)
    requires Evaluate(x).Some?
    ensures var g := Evaluate(x).value;
            && SealedGate(g) && g.body.gate == x.gate && g.body.official == x.official
            && (forall id: nat :: id in g.body.required <==> NeedsEvidence(x.gate, id))
            && (forall id :: id in g.body.evidence <==> NeedsEvidence(x.gate, id) && id in x.evidence)
            && (forall id :: id in g.body.evidence ==> g.body.evidence[id] == x.evidence[id].digest)
            && (forall e: nat :: e in g.body.prerequisites <==> 1 <= e < x.gate)
            && (forall e :: e in g.body.prerequisites ==>
                  g.body.prerequisites[e] == if e in x.prerequisites then Some(x.prerequisites[e].body.decision) else None)
            && g.body.reviewDigest == x.review.digest && g.body.indexDigest == x.index.digest
            && g.body.blockers == multiset(x.review.body.findings)[Blocker] && g.body.majors == multiset(x.review.body.findings)[Major]
  {
    hide EvidenceProofs, PrerequisiteProofs, OtherProofs, NeedsEvidence, NeedsOfficial, ValidGate, SealedGate;
    PoliciesExactly(x.gate);
    hide Required, Prerequisites, OfficialFor;
    GateSealed(Evaluate(x).value);
    CountExactly(x.review.body.findings, Blocker);
    CountExactly(x.review.body.findings, Major);
  }

  /**
   The digest of a GO record commits to everything the decision was made from: two GO decisions with
   one digest have the same review, index and official results, and for every required id the same
   evidence record resting on the same results and the same recorded file digests.
   */
  lemma {:induction false} GoDigestCommits(x: Inputs, y: Inputs)
    requires Evaluate(x).Some? && Evaluate(y).Some?
    requires Evaluate(x).value.body.decision == GO && Evaluate(x).value.digest == Evaluate(y).value.digest
    ensures x.gate == y.gate && x.index == y.index && x.review == y.review && x.official == y.official && Proven(y)
    ensures forall id: nat :: NeedsEvidence(x.gate, id) ==> id in x.evidence && id in y.evidence && x.evidence[id] == y.evidence[id]
    ensures forall id: nat :: NeedsEvidence(x.gate, id) ==>
              forall i :: 0 <= i < |x.evidence[id].body.resultRefs| ==>
                var path := x.evidence[id].body.resultRefs[i].path;
                path in x.results && path in y.results && x.results[path] == y.results[path]
  {
    DecisionExactly(x);
    DecisionExactly(y);
    RecordExactly(x);
    RecordExactly(y);
    AnswersExactly(x);
    AnswersExactly(y);
    hide Evaluate, NeedsEvidence, NeedsOfficial, DistinctBy, ScanRaises;
    assert Evaluate(x).value.body == Evaluate(y).value.body;
    forall id: nat | NeedsEvidence(x.gate, id)
      ensures id in x.evidence && id in y.evidence && x.evidence[id] == y.evidence[id]
      ensures forall i :: 0 <= i < |x.evidence[id].body.resultRefs| ==>
                var path := x.evidence[id].body.resultRefs[i].path;
                path in x.results && path in y.results && x.results[path] == y.results[path]
    {
      assert Supported(x, id) && Supported(y, id);
      SameSupport(x, y, id);
    }
  }

  lemma {:induction false} SameSupport(x: Inputs, y: Inputs, id: nat)
    requires Supported(x, id) && Supported(y, id) && x.evidence[id].digest == y.evidence[id].digest
    ensures x.evidence[id] == y.evidence[id]
    ensures forall i :: 0 <= i < |x.evidence[id].body.resultRefs| ==>
              var path := x.evidence[id].body.resultRefs[i].path;
              path in x.results && path in y.results && x.results[path] == y.results[path]
  {
    var e := x.evidence[id];
    assert e == y.evidence[id];
    forall i | 0 <= i < |e.body.resultRefs|
      ensures var path := e.body.resultRefs[i].path;
              path in x.results && path in y.results && x.results[path] == y.results[path]
    {
      assert Backed(x, e, e.body.resultRefs[i]) && Backed(y, e, e.body.resultRefs[i]);
    }
  }

  // ---- The evaluation as the source runs it ----

  lemma {:induction false} EvidenceRaises(x: Inputs, ids: seq<nat>, n: nat)
    requires n <= |ids| && EvidenceProofs(x, ids[..n]).None?
    ensures EvidenceProofs(x, ids).None?
    decreases |ids| - n
  {
    hide EvidenceProof;
    if n == |ids| {
      assert ids[..n] == ids;
    } else {
      assert ids[..n + 1][..n] == ids[..n];
      EvidenceRaises(x, ids, n + 1);
    }
  }

  lemma {:induction false} PrerequisitesRaise(x: Inputs, gates: seq<nat>, n: nat)
    requires n <= |gates| && PrerequisiteProofs(x, gates[..n]).None?
    ensures PrerequisiteProofs(x, gates).None?
    decreases |gates| - n
  {
    hide PrerequisiteProof;
    if n == |gates| {
      assert gates[..n] == gates;
    } else {
      assert gates[..n + 1][..n] == gates[..n];
      PrerequisitesRaise(x, gates, n + 1);
    }
  }

  /** `evaluate_gate` as the source runs it: one flag, cleared by the loops over evidence and prerequisites. */
  method EvaluateGate(x: Inputs) returns (r: Option<Gate>)
    ensures r == Evaluate(x)
    ensures r.Some? <==> Answerable(x)
    ensures r.Some? ==>
              && (r.value.body.decision == GO <==> Proven(x) && !x.remediationPending)
              && (r.value.body.decision == CONDITIONAL_GO <==> Proven(x) && x.remediationPending && x.gate != 6)
              && (r.value.body.decision == NO_GO <==> !Proven(x) || (x.remediationPending && x.gate == 6))
  {
    hide Answerable, Proven, EvidenceProof, PrerequisiteProof, BoundGate, ValidIndex, ValidReview, OtherProofs, GateRecord, Required, Prerequisites, OfficialOk;
    AnswersExactly(x);
    if Evaluate(x).Some? { DecisionExactly(x); }
    if !(1 <= x.gate <= 6) || !ValidIndex(x.index) || !ValidReview(x.review) { return None; }
    var required, earlier := Required(x.gate), Prerequisites(x.gate);
    var proofOk := true;
    var i := 0;
    while i < |required|
      invariant 0 <= i <= |required|
      invariant EvidenceProofs(x, required[..i]) == Some(proofOk)
    {
      var proof := EvidenceProof(x, required[i]);
      assert required[..i + 1][..i] == required[..i];
      if proof.None? {
        EvidenceRaises(x, required, i + 1);
        return None;
      }
      proofOk := proofOk && proof.value;
      i := i + 1;
    }
    assert required[..i] == required;
    var prerequisitesOk := true;
    i := 0;
    while i < |earlier|
      invariant 0 <= i <= |earlier|
      invariant PrerequisiteProofs(x, earlier[..i]) == Some(prerequisitesOk)
    {
      var proof := PrerequisiteProof(x, earlier[i]);
      assert earlier[..i + 1][..i] == earlier[..i];
      if proof.None? {
        PrerequisitesRaise(x, earlier, i + 1);
        return None;
      }
      prerequisitesOk := prerequisitesOk && proof.value;
      i := i + 1;
    }
    assert earlier[..i] == earlier;
    if !OfficialOk(x.official) || (x.workspace.Some? && !x.workspace.value.valid) { return None; }
    var record := GateRecord(x, proofOk && prerequisitesOk && OtherProofs(x));
    return if BoundGate(record, x.review, x.index) then Some(record) else None;
  }
}
