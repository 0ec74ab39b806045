/** Incremental invalidation agrees with evaluation from scratch. */
module QualificationAgreement {
  import opened Common
  import opened Qualification

  /** `changed` contains every path whose digest differs between the two file states. */
  ghost predicate DiffersOnlyOn(files: map<string, string>, files': map<string, string>, changed: set<string>) {
    forall p: string :: Get(files, p) != Get(files', p) ==> p in changed
  }

  /** `changed` is exactly the set of paths whose digest differs. */
  ghost predicate DiffersExactlyOn(files: map<string, string>, files': map<string, string>, changed: set<string>) {
    forall p: string :: Get(files, p) != Get(files', p) <==> p in changed
  }

  /** A result that no changed path touches keeps its freshness. */
  lemma {:induction false} UntouchedKeepsFreshness(r: ValidationResult, files: map<string, string>, files': map<string, string>, artifacts: map<string, string>, changed: set<string>)
    requires DiffersOnlyOn(files, files', changed) && !Touches(r, changed)
    ensures ResultFresh(r, files', artifacts) == ResultFresh(r, files, artifacts)
  {
    forall i | 0 <= i < |r.body.files|
      ensures Get(files', r.body.files[i].path) == Get(files, r.body.files[i].path)
    {
      assert r.body.files[i].path !in changed;
    }
  }

  /** For a result that was fresh, being touched and being rejected now are the same thing. */
  lemma {:induction false} TouchedIsStale(r: ValidationResult, files: map<string, string>, files': map<string, string>, artifacts: map<string, string>, changed: set<string>)
    requires DiffersExactlyOn(files, files', changed)
    requires ResultFresh(r, files, artifacts) == Some(true)
    ensures ResultFresh(r, files', artifacts) == Some(!Touches(r, changed))
  {
    if Touches(r, changed) {
      var i :| 0 <= i < |r.body.files| && r.body.files[i].path in changed;
      assert Get(files, r.body.files[i].path) == Some(r.body.files[i].sha);
      assert Get(files', r.body.files[i].path) != Get(files, r.body.files[i].path);
    } else {
      UntouchedKeepsFreshness(r, files, files', artifacts, changed);
    }
  }

  /** The early-return scan succeeds exactly when every ref from `i` on binds to a fresh result. */
  lemma {:induction false} RefsFreshExactly(e: Evidence, i: nat, results: map<string, ValidationResult>, files: map<string, string>, artifacts: map<string, string>)
    requires i <= |e.body.resultRefs|
    ensures RefsFresh(e, i, results, files, artifacts) == Some(true) <==>
            forall k :: i <= k < |e.body.resultRefs| ==>
              var ref := e.body.resultRefs[k];
              ref.path in results && Binds(ref, results[ref.path], e) && ResultFresh(results[ref.path], files, artifacts) == Some(true)
    decreases |e.body.resultRefs| - i
  {
    hide ResultFresh, Binds;
    if i < |e.body.resultRefs| {
      RefsFreshExactly(e, i + 1, results, files, artifacts);
    }
  }

  /** A scan over refs that were all fresh never raises on other file digests. */
  lemma {:induction false} RefsNeverRaise(e: Evidence, i: nat, results: map<string, ValidationResult>, files: map<string, string>, files': map<string, string>, artifacts: map<string, string>)
    requires i <= |e.body.resultRefs|
    requires RefsFresh(e, i, results, files, artifacts) == Some(true)
    ensures RefsFresh(e, i, results, files', artifacts).Some?
    decreases |e.body.resultRefs| - i
  {
    hide Binds, ValidResult, FilesCurrent, ArtifactsCurrent;
    if i < |e.body.resultRefs| {
      RefsNeverRaise(e, i + 1, results, files, files', artifacts);
    }
  }

  /** The same agreement for evidence that was fresh, through the results it refers to. */
  lemma {:induction false} EvidenceStaleExactly(e: Evidence, results: map<string, ValidationResult>, files: map<string, string>, files': map<string, string>, artifacts: map<string, string>, changed: set<string>)
    requires DiffersExactlyOn(files, files', changed)
    requires EvidenceFresh(e, results, files, artifacts) == Some(true)
    ensures EvidenceFresh(e, results, files', artifacts) == Some(!UsesAny(e, StaleResults(changed, results)))
  {
    hide ResultFresh, Binds, ValidEvidence, Touches, ArtifactsCurrent, DiffersExactlyOn;
    RefsFreshExactly(e, 0, results, files, artifacts);
    RefsFreshExactly(e, 0, results, files', artifacts);
    RefsNeverRaise(e, 0, results, files, files', artifacts);
    forall k | 0 <= k < |e.body.resultRefs|
      ensures var path := e.body.resultRefs[k].path;
              path in results && ResultFresh(results[path], files', artifacts) == Some(path !in StaleResults(changed, results))
    {
      TouchedIsStale(results[e.body.resultRefs[k].path], files, files', artifacts, changed);
    }
    if UsesAny(e, StaleResults(changed, results)) {
      var k :| 0 <= k < |e.body.resultRefs| && e.body.resultRefs[k].path in StaleResults(changed, results);
      assert ResultFresh(results[e.body.resultRefs[k].path], files', artifacts) == Some(false);
      assert RefsFresh(e, 0, results, files', artifacts) != Some(true);
      var scanned := RefsFresh(e, 0, results, files', artifacts);
      assert !scanned.value;
      assert EvidenceFresh(e, results, files', artifacts) == scanned;
      assert scanned == Some(false);
    } else {
      assert forall k :: 0 <= k < |e.body.resultRefs| ==> e.body.resultRefs[k].path !in StaleResults(changed, results);
    }
  }

  /**
   When the changed paths are exactly the differing ones and everything was fresh before, the
   incremental stale sets are exactly what the from-scratch tests now reject.
   */
  lemma {:induction false} StaleSetsExact(changed: set<string>, results: map<string, ValidationResult>, byPath: map<string, Evidence>, gates: map<nat, Gate>,
                       files: map<string, string>, files': map<string, string>, artifacts: map<string, string>)
    requires DiffersExactlyOn(files, files', changed)
    requires Invalidate(changed, results, byPath, gates).Some?
    requires forall ref :: ref in results ==> ResultFresh(results[ref], files, artifacts) == Some(true)
    requires forall ref :: ref in byPath ==> EvidenceFresh(byPath[ref], results, files, artifacts) == Some(true)
    ensures var inv := Invalidate(changed, results, byPath, gates).value;
            && inv.results == (set ref | ref in results && ResultFresh(results[ref], files', artifacts) == Some(false))
            && inv.evidence == (set ref | ref in byPath && EvidenceFresh(byPath[ref], results, files', artifacts) == Some(false))
  {
    hide ResultFresh, EvidenceFresh, DiffersExactlyOn, Touches, UsesAny, AllValid;
    forall ref | ref in results
      ensures ResultFresh(results[ref], files', artifacts) == Some(!Touches(results[ref], changed))
    {
      TouchedIsStale(results[ref], files, files', artifacts, changed);
    }
    forall ref | ref in byPath
      ensures EvidenceFresh(byPath[ref], results, files', artifacts) == Some(!UsesAny(byPath[ref], StaleResults(changed, results)))
    {
      EvidenceStaleExactly(byPath[ref], results, files, files', artifacts, changed);
    }
  }

  /** More changed paths never make fewer results, evidence records or gates stale. */
  lemma {:induction false} InvalidationMonotone(changed: set<string>, changed': set<string>, results: map<string, ValidationResult>, byPath: map<string, Evidence>, gates: map<nat, Gate>)
    requires changed <= changed'
    ensures Invalidate(changed, results, byPath, gates).Some? == Invalidate(changed', results, byPath, gates).Some?
    ensures Invalidate(changed, results, byPath, gates).Some? ==>
              var inv, inv' := Invalidate(changed, results, byPath, gates).value, Invalidate(changed', results, byPath, gates).value;
              inv.results <= inv'.results && inv.evidence <= inv'.evidence && forall g :: g in inv.gates ==> g in inv'.gates
  {
    hide AllValid;
    if Invalidate(changed, results, byPath, gates).Some? {
      var stale, stale' := StaleResults(changed, results), StaleResults(changed', results);
      assert stale <= stale';
      var used, used' := StaleEvidence(stale, byPath), StaleEvidence(stale', byPath);
      assert used <= used';
      var ids, ids' := IdsOf(used, byPath), IdsOf(used', byPath);
      InvalidGatesExactly(gates, ids, 6);
      InvalidGatesExactly(gates, ids', 6);
      forall g: nat | g in gates && Invalidated(gates[g], ids)
        ensures Invalidated(gates[g], ids')
      {}
    }
  }

  // ---- Gates ----

  /** Every required evidence record of the evaluation is also in the path-keyed map. */
  ghost predicate Covers(x: Inputs, byPath: map<string, Evidence>) {
    && (forall id :: id in x.evidence ==> x.evidence[id].body.id == id)
    && (forall id: nat :: id in Required(x.gate) && id in x.evidence ==> exists ref :: ref in byPath && byPath[ref] == x.evidence[id])
  }

  /** The path-keyed map holds no other record for a required id. */
  ghost predicate NoOtherRecord(x: Inputs, byPath: map<string, Evidence>) {
    forall ref :: ref in byPath && byPath[ref].body.id in Required(x.gate) ==>
      byPath[ref].body.id in x.evidence && byPath[ref] == x.evidence[byPath[ref].body.id]
  }

  lemma {:induction false} ProofsPointwise(x: Inputs, ids: seq<nat>)
    ensures EvidenceProofs(x, ids) == Some(true) <==> forall i :: 0 <= i < |ids| ==> EvidenceProof(x, ids[i]) == Some(true)
    ensures EvidenceProofs(x, ids).None? <==> exists i :: 0 <= i < |ids| && EvidenceProof(x, ids[i]).None?
  {
    hide EvidenceProof;
    if ids != [] {
      var init := ids[..|ids| - 1];
      ProofsPointwise(x, init);
      assert forall i :: 0 <= i < |init| ==> init[i] == ids[i];
    }
  }

  lemma {:induction false} PrerequisitesIgnoreFiles(x: Inputs, x': Inputs, gates: seq<nat>)
    requires x' == x.(files := x'.files)
    ensures PrerequisiteProofs(x', gates) == PrerequisiteProofs(x, gates)
  {
    hide ValidGate;
    if gates != [] {
      PrerequisitesIgnoreFiles(x, x', gates[..|gates| - 1]);
    }
  }

  /** A GO decision rests on fresh, selected, passing evidence for every required id and on GO prerequisites. */
  lemma {:induction false} GoNeedsProofs(x: Inputs)
    requires Evaluate(x).Some? && Evaluate(x).value.body.decision == GO
    ensures Evaluate(x) == Some(GateRecord(x, true)) && OtherProofs(x)
    ensures forall id: nat :: id in Required(x.gate) ==> EvidenceProof(x, id) == Some(true)
    ensures PrerequisiteProofs(x, Prerequisites(x.gate)) == Some(true)
  {
    hide EvidenceProof, Required, Prerequisites, BoundGate, PrerequisiteProofs, OtherProofs;
    ProofsPointwise(x, Required(x.gate));
  }

  /** With unchanged inputs other than file digests, the outcome follows the evidence proofs. */
  lemma {:induction false} GoAgain(x: Inputs, x': Inputs)
    requires Evaluate(x).Some? && Evaluate(x).value.body.decision == GO
    requires x' == x.(files := x'.files)
    requires EvidenceProofs(x', Required(x.gate)).Some?
    ensures Evaluate(x').Some?
    ensures Evaluate(x').value.body.decision == GO <==> EvidenceProofs(x', Required(x.gate)) == Some(true)
    ensures EvidenceProofs(x', Required(x.gate)) == Some(true) ==> Evaluate(x') == Evaluate(x)
  {
    hide EvidenceProof, EvidenceProofs, PrerequisiteProofs, Required, Prerequisites, OfficialFor;
    GoNeedsProofs(x);
    PrerequisitesIgnoreFiles(x, x', Prerequisites(x.gate));
    assert GateRecord(x', true) == GateRecord(x, true);
    assert BoundGate(GateRecord(x', false), x.review, x.index);
  }

  /** The proof of one evidence id after the change, when it held before. */
  lemma {:induction false} ProofAfterChange(x: Inputs, x': Inputs, id: nat, changed: set<string>)
    requires x' == x.(files := x'.files) && DiffersExactlyOn(x.files, x'.files, changed)
    requires EvidenceProof(x, id) == Some(true)
    ensures id in x.evidence && EvidenceProof(x', id) == Some(!UsesAny(x.evidence[id], StaleResults(changed, x.results)))
  {
    hide EvidenceFresh, ValidEvidence, DiffersExactlyOn;
    EvidenceStaleExactly(x.evidence[id], x.results, x.files, x'.files, x.artifacts, changed);
  }

  /** The same when the changed paths merely cover the difference: unlisted evidence stays proved. */
  lemma {:induction false} ProofSurvives(x: Inputs, x': Inputs, id: nat, changed: set<string>)
    requires x' == x.(files := x'.files) && DiffersOnlyOn(x.files, x'.files, changed)
    requires EvidenceProof(x, id) == Some(true) && !UsesAny(x.evidence[id], StaleResults(changed, x.results))
    ensures EvidenceProof(x', id) == Some(true)
  {
    hide ResultFresh, Binds, ValidEvidence, ArtifactsCurrent, DiffersOnlyOn, Touches;
    var e := x.evidence[id];
    RefsFreshExactly(e, 0, x.results, x.files, x.artifacts);
    RefsFreshExactly(e, 0, x.results, x'.files, x.artifacts);
    forall k | 0 <= k < |e.body.resultRefs|
      ensures ResultFresh(x.results[e.body.resultRefs[k].path], x'.files, x.artifacts) == Some(true)
    {
      assert e.body.resultRefs[k].path !in StaleResults(changed, x.results);
      UntouchedKeepsFreshness(x.results[e.body.resultRefs[k].path], x.files, x'.files, x.artifacts, changed);
    }
  }

  /** A gate that was GO is listed exactly through stale required evidence. */
  lemma {:induction false} ListedThroughEvidence(x: Inputs, changed: set<string>, byPath: map<string, Evidence>, gates: map<nat, Gate>)
    requires Evaluate(x).Some? && Evaluate(x).value.body.decision == GO
    requires Invalidate(changed, x.results, byPath, gates).Some?
    requires x.gate in gates && gates[x.gate] == Evaluate(x).value
    ensures var inv := Invalidate(changed, x.results, byPath, gates).value;
            x.gate in inv.gates <==> exists ref :: ref in inv.evidence && byPath[ref].body.id in Required(x.gate)
  {
    hide EvidenceProofs, PrerequisiteProof, BoundGate, AllValid, Required, OtherProofs, StaleResults, UsesAny;
    GoNeedsProofs(x);
    var stale := StaleEvidence(StaleResults(changed, x.results), byPath);
    var ids := IdsOf(stale, byPath);
    InvalidGatesExactly(gates, ids, 6);
    var g := gates[x.gate];
    AllGo(x, Prerequisites(x.gate));
    assert forall p :: p in g.body.prerequisites ==> g.body.prerequisites[p] == Some(GO);
    assert Invalidated(g, ids) <==> exists i :: 0 <= i < |Required(x.gate)| && Required(x.gate)[i] in ids;
  }

  lemma {:induction false} AllGo(x: Inputs, gates: seq<nat>)
    requires PrerequisiteProofs(x, gates) == Some(true)
    ensures forall g :: g in gates ==> g in x.prerequisites && x.prerequisites[g].body.decision == GO
  {
    hide ValidGate;
    if gates != [] {
      AllGo(x, gates[..|gates| - 1]);
      assert gates == gates[..|gates| - 1] + [gates[|gates| - 1]];
    }
  }

  /**
   Soundness: a GO gate that invalidation does not list is GO again, with the same record, on every
   file state that differs only on the changed paths.
   */
  lemma {:induction false} NotListedStaysGo(x: Inputs, x': Inputs, changed: set<string>, byPath: map<string, Evidence>, gates: map<nat, Gate>)
    requires Evaluate(x).Some? && Evaluate(x).value.body.decision == GO
    requires x' == x.(files := x'.files) && DiffersOnlyOn(x.files, x'.files, changed)
    requires Invalidate(changed, x.results, byPath, gates).Some?
    requires x.gate in gates && gates[x.gate] == Evaluate(x).value
    requires Covers(x, byPath)
    requires x.gate !in Invalidate(changed, x.results, byPath, gates).value.gates
    ensures Evaluate(x') == Evaluate(x)
  {
    hide Evaluate, EvidenceProof, DiffersOnlyOn, Required, InvalidGates, AllValid, UsesAny, StaleResults;
    GoNeedsProofs(x);
    ListedThroughEvidence(x, changed, byPath, gates);
    forall id: nat | id in Required(x.gate)
      ensures EvidenceProof(x', id) == Some(true)
    {
      ProofHasEvidence(x, id);
      var ref :| ref in byPath && byPath[ref] == x.evidence[id];
      ProofSurvives(x, x', id, changed);
    }
    ProofsPointwise(x', Required(x.gate));
    GoAgain(x, x');
  }

  lemma ProofHasEvidence(x: Inputs, id: nat)
    requires EvidenceProof(x, id) == Some(true)
    ensures id in x.evidence
  {}

  /**
   Agreement: when the changed paths are exactly the differing ones and the two evidence maps hold
   the same records, a gate that was GO is listed if and only if evaluating it again is no longer GO.
   */
  lemma {:induction false} ListedIffNoLongerGo(x: Inputs, x': Inputs, changed: set<string>, byPath: map<string, Evidence>, gates: map<nat, Gate>)
    requires Evaluate(x).Some? && Evaluate(x).value.body.decision == GO
    requires x' == x.(files := x'.files) && DiffersExactlyOn(x.files, x'.files, changed)
    requires Invalidate(changed, x.results, byPath, gates).Some?
    requires x.gate in gates && gates[x.gate] == Evaluate(x).value
    requires Covers(x, byPath) && NoOtherRecord(x, byPath)
    ensures Evaluate(x').Some?
    ensures x.gate in Invalidate(changed, x.results, byPath, gates).value.gates <==> Evaluate(x').value.body.decision != GO
  {
    hide Evaluate, EvidenceProof, DiffersExactlyOn, Required, InvalidGates, AllValid, UsesAny, StaleResults;
    GoNeedsProofs(x);
    ListedThroughEvidence(x, changed, byPath, gates);
    forall id: nat | id in Required(x.gate)
      ensures id in x.evidence && EvidenceProof(x', id) == Some(!UsesAny(x.evidence[id], StaleResults(changed, x.results)))
      ensures exists ref :: ref in byPath && byPath[ref] == x.evidence[id]
    {
      ProofAfterChange(x, x', id, changed);
    }
    ProofsPointwise(x', Required(x.gate));
    GoAgain(x, x');
  }
}
