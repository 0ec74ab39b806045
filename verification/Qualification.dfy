/** Full MCP qualification records: freshness from scratch, gate evaluation, and incremental invalidation. */
module Qualification {
  import opened Common
  import opened Order

  // ---- Records and ideal digests ----

  datatype Verdict = PASS | FAIL | BLOCKED | UndeclaredVerdict

  datatype FileEntry = FileEntry(path: string, sha: string)
  datatype ArtifactEntry = ArtifactEntry(ref: string, digest: string)

  /** `wellFormed` stands for the remaining field-presence and hex-format checks of each record. */
  datatype ResultBody = ResultBody(
    project: string, run: string, attempt: int, testId: string, consumer: string, verdict: Verdict,
    files: seq<FileEntry>, artifacts: seq<ArtifactEntry>, wellFormed: bool)

  datatype ResultRef = ResultRef(testId: string, attempt: int, consumer: string, path: string, digest: Digest)

  /** Evidence EVD-n is identified by the number n. */
  datatype EvidenceBody = EvidenceBody(
    id: nat, project: string, run: string, testRefs: seq<string>, resultRefs: seq<ResultRef>,
    artifacts: seq<ArtifactEntry>, verdict: Verdict, wellFormed: bool)

  datatype IndexEntry = IndexEntry(id: nat, digest: Digest)
  datatype IndexBody = IndexBody(entries: seq<IndexEntry>, wellFormed: bool)

  datatype Severity = Blocker | Major | Minor | Unresolved
  datatype ReviewBody = ReviewBody(
    gate: nat, indexDigest: Digest, findings: seq<Severity>, blockers: nat, majors: nat, minors: nat, wellFormed: bool)

  datatype Decision = GO | CONDITIONAL_GO | NO_GO
  datatype OfficialResult = Passed | Failed | UndeclaredResult

  /** Gate GATE-00n is the number n; official acceptance names are numbered 0 to 11 in their declared order. */
  datatype GateBody = GateBody(
    gate: nat, decision: Decision, required: seq<nat>, evidence: map<nat, Digest>, prerequisites: map<nat, Option<Decision>>,
    official: map<nat, OfficialResult>, reviewDigest: Digest, blockers: nat, majors: nat, indexDigest: Digest, bindingOk: bool)

  /** SHA-256 of a canonical record body as a free constructor. */
  datatype Digest = OfResult(r: ResultBody) | OfEvidence(e: EvidenceBody) | OfIndex(i: IndexBody) | OfReview(v: ReviewBody)
                  | OfGate(g: GateBody) | Foreign(text: string)

  datatype ValidationResult = ValidationResult(body: ResultBody, digest: Digest)
  datatype Evidence = Evidence(body: EvidenceBody, digest: Digest)
  datatype Index = Index(body: IndexBody, digest: Digest)
  datatype Review = Review(body: ReviewBody, digest: Digest)
  datatype Gate = Gate(body: GateBody, digest: Digest)

  // ---- Gate policies ----

  function Prerequisites(gate: nat): seq<nat> {
    if gate == 2 then [1] else if gate == 3 then [1, 2] else if gate == 4 then [1, 2, 3]
    else if gate == 5 then [1, 2, 3, 4] else if gate == 6 then [1, 2, 3, 4, 5] else []
  }

  /** Prerequisite evidence followed by current evidence, without repetition. */
  function Required(gate: nat): seq<nat> {
    if gate == 1 then [1, 2, 3]
    else if gate == 2 then [1, 2, 3, 4, 5, 6, 7, 8]
    else if gate == 3 then [1, 2, 3, 4, 5, 6, 7, 8, 9, 10, 11, 12, 13, 16]
    else if gate == 4 then [4, 7, 11, 12, 13, 16, 14]
    else if gate == 5 then [13, 16, 15, 17, 18, 21]
    else if gate == 6 then [1, 2, 3, 4, 5, 6, 7, 8, 9, 10, 11, 12, 13, 14, 15, 16, 17, 18, 21, 19, 20]
    else []
  }

  function OfficialFor(gate: nat): seq<nat> {
    if gate == 2 then [0, 1, 2, 3, 4] else if gate == 3 then [5] else if gate == 4 then [6, 7, 9, 10]
    else if gate == 5 || gate == 6 then [0, 1, 2, 3, 4, 5, 6, 7, 8, 9, 10, 11] else []
  }

  function OfficialNames(): set<nat> {
    {0, 1, 2, 3, 4, 5, 6, 7, 8, 9, 10, 11}
  }

  predicate CompleteOfficial(official: map<nat, OfficialResult>) {
    official.Keys == OfficialNames()
  }

  // ---- Validators: false where the source raises ----

  function Get<K, V>(m: map<K, V>, k: K): Option<V> {
    if k in m then Some(m[k]) else None
  }

  predicate ValidResult(r: ValidationResult) {
    && !r.body.verdict.UndeclaredVerdict? && r.body.attempt >= 1 && r.body.wellFormed
    && (forall i :: 0 < i < |r.body.files| ==> Less(r.body.files[i - 1].path, r.body.files[i].path))
    && r.digest == OfResult(r.body)
  }

  predicate HasResult(e: Evidence, test: string) {
    exists j :: 0 <= j < |e.body.resultRefs| && e.body.resultRefs[j].testId == test
  }

  predicate ValidEvidence(e: Evidence) {
    && !e.body.verdict.UndeclaredVerdict? && e.body.wellFormed
    && (forall i :: 0 <= i < |e.body.testRefs| ==> HasResult(e, e.body.testRefs[i]))
    && e.digest == OfEvidence(e.body)
  }

  predicate ValidIndex(x: Index) {
    && x.body.wellFormed && x.digest == OfIndex(x.body)
    && forall i, j :: 0 <= i < j < |x.body.entries| ==> x.body.entries[i].id != x.body.entries[j].id
  }

  function CountOf(findings: seq<Severity>, s: Severity): nat {
    if findings == [] then 0 else (if findings[0] == s then 1 else 0) + CountOf(findings[1..], s)
  }

  predicate ValidReview(v: Review) {
    && v.body.wellFormed && v.digest == OfReview(v.body) && Unresolved !in v.body.findings
    && v.body.blockers == CountOf(v.body.findings, Blocker) && v.body.majors == CountOf(v.body.findings, Major)
    && v.body.minors == CountOf(v.body.findings, Minor)
  }

  predicate OfficialOk(official: map<nat, OfficialResult>) {
    forall k :: k in official ==> !official[k].UndeclaredResult?
  }

  predicate ValidGate(g: Gate) {
    && 1 <= g.body.gate <= 6 && !(g.body.gate == 6 && g.body.decision == CONDITIONAL_GO)
    && (forall k :: k in g.body.official ==> k < 12) && OfficialOk(g.body.official)
    && (g.body.gate >= 5 ==> CompleteOfficial(g.body.official))
    && g.body.bindingOk && g.digest == OfGate(g.body)
  }

  predicate BoundGate(g: Gate, review: Review, index: Index) {
    && ValidGate(g) && ValidReview(review) && ValidIndex(index)
    && g.body.reviewDigest == review.digest && g.body.blockers == review.body.blockers && g.body.majors == review.body.majors
    && g.body.indexDigest == index.digest && review.body.indexDigest == index.digest && review.body.gate == g.body.gate
    && forall i :: 0 <= i < |g.body.required| ==> Selected(index, g.body.required[i]).Some?
  }

  /** The digest the selection index records for an evidence id. */
  function Selected(index: Index, id: nat): Option<Digest> {
    SelectedIn(index.body.entries, id)
  }

  function SelectedIn(entries: seq<IndexEntry>, id: nat): Option<Digest> {
    if entries == [] then None else if entries[0].id == id then Some(entries[0].digest) else SelectedIn(entries[1..], id)
  }

  // ---- Freshness from scratch; None where the source raises ----

  predicate FilesCurrent(entries: seq<FileEntry>, files: map<string, string>) {
    forall i :: 0 <= i < |entries| ==> Get(files, entries[i].path) == Some(entries[i].sha)
  }

  predicate ArtifactsCurrent(entries: seq<ArtifactEntry>, artifacts: map<string, string>) {
    forall i :: 0 <= i < |entries| ==> Get(artifacts, entries[i].ref) == Some(entries[i].digest)
  }

  /** `validation_result_fresh` */
  function ResultFresh(r: ValidationResult, files: map<string, string>, artifacts: map<string, string>): Option<bool> {
    if !ValidResult(r) then None else Some(FilesCurrent(r.body.files, files) && ArtifactsCurrent(r.body.artifacts, artifacts))
  }

  predicate Binds(ref: ResultRef, r: ValidationResult, e: Evidence) {
    && r.digest == ref.digest && r.body.verdict == PASS && r.body.project == e.body.project && r.body.run == e.body.run
    && r.body.testId == ref.testId && r.body.attempt == ref.attempt && r.body.consumer == ref.consumer
  }

  /** The early-return scan of `evidence_fresh` over the result refs from position `i`. */
  function RefsFresh(e: Evidence, i: nat, results: map<string, ValidationResult>, files: map<string, string>, artifacts: map<string, string>): Option<bool>
    requires i <= |e.body.resultRefs|
    decreases |e.body.resultRefs| - i
  {
    if i == |e.body.resultRefs| then Some(true)
    else
      var ref := e.body.resultRefs[i];
      if ref.path !in results || !Binds(ref, results[ref.path], e) then Some(false)
      else
        var current := ResultFresh(results[ref.path], files, artifacts);
        if current != Some(true) then current else RefsFresh(e, i + 1, results, files, artifacts)
  }

  /** `evidence_fresh` */
  function EvidenceFresh(e: Evidence, results: map<string, ValidationResult>, files: map<string, string>, artifacts: map<string, string>): Option<bool> {
    if !ValidEvidence(e) then None
    else
      var refs := RefsFresh(e, 0, results, files, artifacts);
      if refs != Some(true) then refs else Some(ArtifactsCurrent(e.body.artifacts, artifacts) && e.body.verdict == PASS)
  }

  // ---- Gate evaluation ----

  datatype Inputs = Inputs(
    gate: nat, index: Index, review: Review, evidence: map<nat, Evidence>, prerequisites: map<nat, Gate>,
    official: map<nat, OfficialResult>, bindingOk: bool, results: map<string, ValidationResult>,
    files: map<string, string>, artifacts: map<string, string>, workspace: Option<Workspace>, remediationPending: bool)

  datatype Workspace = Workspace(unauthorizedChanges: int, valid: bool)

  function And(a: Option<bool>, b: Option<bool>): Option<bool> {
    if a.None? || b.None? then None else Some(a.value && b.value)
  }

  /** One iteration of the required-evidence loop. */
  function EvidenceProof(x: Inputs, id: nat): Option<bool> {
    if id !in x.evidence || Selected(x.index, id).None? then Some(false)
    else
      var e := x.evidence[id];
      if !ValidEvidence(e) then None
      else if e.body.verdict != PASS || Selected(x.index, id).value != e.digest then Some(false)
      else EvidenceFresh(e, x.results, x.files, x.artifacts)
  }

  function EvidenceProofs(x: Inputs, ids: seq<nat>): Option<bool> {
    if ids == [] then Some(true) else And(EvidenceProofs(x, ids[..|ids| - 1]), EvidenceProof(x, ids[|ids| - 1]))
  }

  function PrerequisiteProof(x: Inputs, gate: nat): Option<bool> {
    if gate !in x.prerequisites then Some(false)
    else if !ValidGate(x.prerequisites[gate]) then None
    else Some(x.prerequisites[gate].body.decision == GO)
  }

  function PrerequisiteProofs(x: Inputs, gates: seq<nat>): Option<bool> {
    if gates == [] then Some(true) else And(PrerequisiteProofs(x, gates[..|gates| - 1]), PrerequisiteProof(x, gates[|gates| - 1]))
  }

  function PrerequisiteStates(x: Inputs): map<nat, Option<Decision>> {
    map g | g in Prerequisites(x.gate) :: if g in x.prerequisites then Some(x.prerequisites[g].body.decision) else None
  }

  /** The proof conditions that do not look at any digest of a current file. */
  predicate OtherProofs(x: Inputs) {
    && (forall i :: 0 <= i < |OfficialFor(x.gate)| ==> Get(x.official, OfficialFor(x.gate)[i]) == Some(Passed))
    && (x.gate >= 5 ==> CompleteOfficial(x.official))
    && x.review.body.blockers == 0 && x.review.body.majors == 0
    && (x.workspace.Some? ==> x.workspace.value.unauthorizedChanges == 0)
  }

  function GateRecord(x: Inputs, proofOk: bool): Gate {
    var decision := if !proofOk then NO_GO else if !x.remediationPending then GO else if x.gate == 6 then NO_GO else CONDITIONAL_GO;
    var body := GateBody(x.gate, decision, Required(x.gate),
                         map id | id in Required(x.gate) && id in x.evidence :: x.evidence[id].digest,
                         PrerequisiteStates(x), x.official, x.review.digest, x.review.body.blockers, x.review.body.majors,
                         x.index.digest, x.bindingOk);
    Gate(body, OfGate(body))
  }

  /** `evaluate_gate`; None where it raises. */
  function Evaluate(x: Inputs): Option<Gate> {
    if !(1 <= x.gate <= 6) || !ValidIndex(x.index) || !ValidReview(x.review) then None
    else
      var proofs := And(EvidenceProofs(x, Required(x.gate)), PrerequisiteProofs(x, Prerequisites(x.gate)));
      if proofs.None? || !OfficialOk(x.official) || (x.workspace.Some? && !x.workspace.value.valid) then None
      else
        var record := GateRecord(x, proofs.value && OtherProofs(x));
        if BoundGate(record, x.review, x.index) then Some(record) else None
  }

  // ---- Incremental invalidation ----

  datatype Invalidation = Invalidation(results: set<string>, evidence: set<string>, gates: seq<nat>, earliest: Option<nat>)

  predicate Touches(r: ValidationResult, changed: set<string>) {
    exists i :: 0 <= i < |r.body.files| && r.body.files[i].path in changed
  }

  function StaleResults(changed: set<string>, results: map<string, ValidationResult>): set<string> {
    set ref | ref in results && Touches(results[ref], changed)
  }

  predicate UsesAny(e: Evidence, stale: set<string>) {
    exists i :: 0 <= i < |e.body.resultRefs| && e.body.resultRefs[i].path in stale
  }

  function StaleEvidence(stale: set<string>, byPath: map<string, Evidence>): set<string> {
    set ref | ref in byPath && UsesAny(byPath[ref], stale)
  }

  function IdsOf(refs: set<string>, byPath: map<string, Evidence>): set<nat> {
    set ref | ref in refs && ref in byPath :: byPath[ref].body.id
  }

  predicate Invalidated(g: Gate, staleIds: set<nat>) {
    || (exists i :: 0 <= i < |g.body.required| && g.body.required[i] in staleIds)
    || (exists p :: p in g.body.prerequisites && g.body.prerequisites[p] != Some(GO))
  }

  /** The invalidated gates with number at most `n`, in gate order. */
  function InvalidGates(gates: map<nat, Gate>, staleIds: set<nat>, n: nat): seq<nat> {
    if n == 0 then []
    else InvalidGates(gates, staleIds, n - 1) + if n in gates && Invalidated(gates[n], staleIds) then [n] else []
  }

  predicate AllValid(results: map<string, ValidationResult>, byPath: map<string, Evidence>, gates: map<nat, Gate>) {
    && (forall ref :: ref in results ==> ValidResult(results[ref]))
    && (forall ref :: ref in byPath ==> ValidEvidence(byPath[ref]))
    && (forall g :: 1 <= g <= 6 && g in gates ==> ValidGate(gates[g]))
  }

  /** `compute_invalidation`; None where it raises. Sorted reference lists are kept as sets. */
  function Invalidate(changed: set<string>, results: map<string, ValidationResult>, byPath: map<string, Evidence>, gates: map<nat, Gate>): Option<Invalidation> {
    if !AllValid(results, byPath, gates) then None
    else
      var staleResults := StaleResults(changed, results);
      var staleEvidence := StaleEvidence(staleResults, byPath);
      var listed := InvalidGates(gates, IdsOf(staleEvidence, byPath), 6);
      Some(Invalidation(staleResults, staleEvidence, listed, if listed == [] then None else Some(listed[0])))
  }

  lemma {:induction false} InvalidGatesExactly(gates: map<nat, Gate>, staleIds: set<nat>, n: nat)
    ensures forall g: nat :: g in InvalidGates(gates, staleIds, n) <==> 1 <= g <= n && g in gates && Invalidated(gates[g], staleIds)
    ensures forall i, j :: 0 <= i < j < |InvalidGates(gates, staleIds, n)| ==> InvalidGates(gates, staleIds, n)[i] < InvalidGates(gates, staleIds, n)[j]
  {
    if n > 0 {
      hide Invalidated;
      InvalidGatesExactly(gates, staleIds, n - 1);
      var init := InvalidGates(gates, staleIds, n - 1);
      assert forall i :: 0 <= i < |init| ==> init[i] in init;
    }
  }

  // ---- The loops ----

  method ScanResults(changed: set<string>, results: map<string, ValidationResult>) returns (stale: Option<set<string>>)
    ensures stale == if forall ref :: ref in results ==> ValidResult(results[ref]) then Some(StaleResults(changed, results)) else None
  {
    hide ValidResult, Touches;
    var found: set<string>, todo := {}, results.Keys;
    while todo != {}
      invariant todo <= results.Keys
      invariant forall ref :: ref in results.Keys - todo ==> ValidResult(results[ref])
      invariant found == set ref | ref in results.Keys - todo && Touches(results[ref], changed)
    {
      var ref :| ref in todo;
      if !ValidResult(results[ref]) { return None; }
      if Touches(results[ref], changed) { found := found + {ref}; }
      todo := todo - {ref};
    }
    assert found == StaleResults(changed, results);
    return Some(found);
  }

  method ScanEvidence(staleResults: set<string>, byPath: map<string, Evidence>) returns (stale: Option<set<string>>)
    ensures stale == if forall ref :: ref in byPath ==> ValidEvidence(byPath[ref]) then Some(StaleEvidence(staleResults, byPath)) else None
  {
    hide ValidEvidence, UsesAny;
    var found: set<string>, todo := {}, byPath.Keys;
    while todo != {}
      invariant todo <= byPath.Keys
      invariant forall ref :: ref in byPath.Keys - todo ==> ValidEvidence(byPath[ref])
      invariant found == set ref | ref in byPath.Keys - todo && UsesAny(byPath[ref], staleResults)
    {
      var ref :| ref in todo;
      if !ValidEvidence(byPath[ref]) { return None; }
      if UsesAny(byPath[ref], staleResults) { found := found + {ref}; }
      todo := todo - {ref};
    }
    assert found == StaleEvidence(staleResults, byPath);
    return Some(found);
  }

  /** `compute_invalidation`: stale results, then the evidence using them, then the gates requiring that evidence. */
  method ComputeInvalidation(changed: set<string>, results: map<string, ValidationResult>, byPath: map<string, Evidence>, gates: map<nat, Gate>)
    returns (r: Option<Invalidation>)
    ensures r == Invalidate(changed, results, byPath, gates)
  {
    hide ValidResult, ValidEvidence, ValidGate, StaleResults, StaleEvidence, Invalidated;
    var staleResults := ScanResults(changed, results);
    if staleResults.None? { return None; }
    var staleEvidence := ScanEvidence(staleResults.value, byPath);
    if staleEvidence.None? { return None; }
    var staleIds := IdsOf(staleEvidence.value, byPath);
    var listed: seq<nat> := [];
    var g := 1;
    while g <= 6
      invariant 1 <= g <= 7
      invariant forall k :: 1 <= k < g && k in gates ==> ValidGate(gates[k])
      invariant listed == InvalidGates(gates, staleIds, g - 1)
    {
      if g in gates {
        if !ValidGate(gates[g]) { return None; }
        if Invalidated(gates[g], staleIds) { listed := listed + [g]; }
      }
      g := g + 1;
    }
    return Some(Invalidation(staleResults.value, staleEvidence.value, listed, if listed == [] then None else Some(listed[0])));
  }
}
