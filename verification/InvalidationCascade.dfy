/** When invalidation reaches every later gate, and a set of qualification records on which it does not. */
module InvalidationCascade {
  import opened Common
  import opened Qualification
  import opened QualificationAgreement

  /** The required evidence of the gate holds a stale id. */
  predicate Hits(gate: nat, staleIds: set<nat>) {
    exists id :: id in Required(gate) && id in staleIds
  }

  lemma HitsEarly(s: set<nat>)
    ensures Hits(1, s) <==> 1 in s || 2 in s || 3 in s
    ensures Hits(2, s) <==> Hits(1, s) || 4 in s || 5 in s || 6 in s || 7 in s || 8 in s
  {}

  lemma {:induction false} HitsThird(s: set<nat>)
    ensures Hits(3, s) <==> Hits(2, s) || 9 in s || 10 in s || 11 in s || 12 in s || 13 in s || 16 in s
  {
    HitsEarly(s);
  }

  lemma HitsLate(s: set<nat>)
    ensures Hits(4, s) <==> 4 in s || 7 in s || 11 in s || 12 in s || 13 in s || 16 in s || 14 in s
    ensures Hits(5, s) <==> 13 in s || 16 in s || 15 in s || 17 in s || 18 in s || 21 in s
  {}

  lemma {:induction false} HitsLast(s: set<nat>)
    ensures Hits(3, s) || Hits(4, s) || Hits(5, s) ==> Hits(6, s)
  {
    HitsEarly(s);
    HitsThird(s);
    HitsLate(s);
    assert forall id :: id in s && (1 <= id <= 18 || id == 21) ==> id in Required(6);
  }

  /** Six recorded gates, each the GO decision of an evaluation over the same validation results. */
  ghost predicate SixGo(xs: seq<Inputs>, results: map<string, ValidationResult>, gates: map<nat, Gate>) {
    && |xs| == 6
    && forall i :: 0 <= i < 6 ==>
         && xs[i].gate == i + 1 && xs[i].results == results
         && Evaluate(xs[i]).Some? && Evaluate(xs[i]).value.body.decision == GO
         && i + 1 in gates && gates[i + 1] == Evaluate(xs[i]).value
  }

  /** A recorded GO gate is listed exactly when a stale evidence id is among its required evidence. */
  lemma {:induction false} ListedIffHit(xs: seq<Inputs>, changed: set<string>, results: map<string, ValidationResult>, byPath: map<string, Evidence>, gates: map<nat, Gate>, g: nat)
    requires SixGo(xs, results, gates) && Invalidate(changed, results, byPath, gates).Some? && 1 <= g <= 6
    ensures var inv := Invalidate(changed, results, byPath, gates).value;
            g in inv.gates <==> Hits(g, IdsOf(inv.evidence, byPath))
  {
    hide Evaluate, Required, AllValid, StaleResults, UsesAny, InvalidGates;
    var x := xs[g - 1];
    ListedThroughEvidence(x, changed, byPath, gates);
    var inv := Invalidate(changed, results, byPath, gates).value;
    if g in inv.gates {
      var ref :| ref in inv.evidence && byPath[ref].body.id in Required(g);
      assert byPath[ref].body.id in IdsOf(inv.evidence, byPath);
    }
    if Hits(g, IdsOf(inv.evidence, byPath)) {
      var id :| id in Required(g) && id in IdsOf(inv.evidence, byPath);
      var ref :| ref in inv.evidence && ref in byPath && byPath[ref].body.id == id;
      assert byPath[ref].body.id in Required(g);
    }
  }

  /**
   Every gate names all earlier gates as prerequisites, yet `compute_invalidation` lists every gate
   behind a listed one exactly when the stale evidence leaves gates 3 and 4 alone or reaches the
   required evidence of both gate 4 and gate 5.
   */
  lemma {:induction false} CascadeExactly(xs: seq<Inputs>, changed: set<string>, results: map<string, ValidationResult>, byPath: map<string, Evidence>, gates: map<nat, Gate>)
    requires SixGo(xs, results, gates) && Invalidate(changed, results, byPath, gates).Some?
    ensures var inv := Invalidate(changed, results, byPath, gates).value;
            var stale := IdsOf(inv.evidence, byPath);
            (forall g, later :: 1 <= g < later <= 6 && g in inv.gates ==> later in inv.gates) <==>
            (!(Hits(3, stale) || Hits(4, stale)) || (Hits(4, stale) && Hits(5, stale)))
  {
    hide Hits, Required, SixGo, Invalidate;
    var inv := Invalidate(changed, results, byPath, gates).value;
    var stale := IdsOf(inv.evidence, byPath);
    forall g: nat | 1 <= g <= 6
      ensures g in inv.gates <==> Hits(g, stale)
    {
      ListedIffHit(xs, changed, results, byPath, gates, g);
    }
    HitsEarly(stale);
    HitsThird(stale);
    HitsLate(stale);
    HitsLast(stale);
  }

  // ---- A complete set of records on which gates 4 and 5 are skipped ----

  /** A passing result over one source file. */
  function PassingResult(file: string): ValidationResult {
    var body := ResultBody("project", "run", 1, "TEST", "consumer", PASS, [FileEntry(file, "digest")], [], true);
    ValidationResult(body, OfResult(body))
  }

  function Results(): map<string, ValidationResult> {
    map["results/a" := PassingResult("a"), "results/b" := PassingResult("b")]
  }

  function Files(): map<string, string> {
    map["a" := "digest", "b" := "digest"]
  }

  /** EVD-001 rests on file a, all other evidence on file b. */
  function PassingEvidence(id: nat): Evidence {
    var path := if id == 1 then "results/a" else "results/b";
    var ref := ResultRef("TEST", 1, "consumer", path, Results()[path].digest);
    var body := EvidenceBody(id, "project", "run", ["TEST"], [ref], [], PASS, true);
    Evidence(body, OfEvidence(body))
  }

  /** One name for each evidence file, told apart by its length. */
  function NameOf(id: nat): string {
    seq(id, _ => 'e')
  }

  function ByPath(): map<string, Evidence> {
    map ref | ref in (set id: nat | 1 <= id <= 21 :: NameOf(id)) :: PassingEvidence(|ref|)
  }

  function Entries(n: nat): seq<IndexEntry> {
    if n == 0 then [] else Entries(n - 1) + [IndexEntry(n, PassingEvidence(n).digest)]
  }

  function FullIndex(): Index {
    var body := IndexBody(Entries(21), true);
    Index(body, OfIndex(body))
  }

  function CleanReview(gate: nat): Review {
    var body := ReviewBody(gate, FullIndex().digest, [], 0, 0, 0, true);
    Review(body, OfReview(body))
  }

  function AllPassed(): map<nat, OfficialResult> {
    map k | k in OfficialNames() :: Passed
  }

  /** Everything evidenced, passed and reviewed, on top of the earlier gates. */
  function CleanInputs(gate: nat): Inputs
    decreases gate, 0
  {
    Inputs(gate, FullIndex(), CleanReview(gate), map id: nat | 1 <= id <= 21 :: PassingEvidence(id),
           map g: nat | 1 <= g < gate :: CleanGate(g), AllPassed(), true,
           Results(), Files(), map[], None, false)
  }

  function CleanGate(gate: nat): Gate
    decreases gate, 1
  {
    GateRecord(CleanInputs(gate), true)
  }

  function CleanGates(): map<nat, Gate> {
    map g: nat | 1 <= g <= 6 :: CleanGate(g)
  }

  function CleanRuns(): seq<Inputs> {
    seq(6, i requires 0 <= i < 6 => CleanInputs(i + 1))
  }

  lemma {:induction false} EntriesAt(n: nat)
    ensures |Entries(n)| == n && forall i :: 0 <= i < n ==> Entries(n)[i] == IndexEntry(i + 1, PassingEvidence(i + 1).digest)
  {
    hide PassingEvidence;
    if n > 0 { EntriesAt(n - 1); }
  }

  lemma {:induction false} SelectedAt(entries: seq<IndexEntry>, i: nat)
    requires i < |entries| && forall j :: 0 <= j < i ==> entries[j].id != entries[i].id
    ensures SelectedIn(entries, entries[i].id) == Some(entries[i].digest)
  {
    if i > 0 { SelectedAt(entries[1..], i - 1); }
  }

  lemma {:induction false} IndexSelects(id: nat)
    requires 1 <= id <= 21
    ensures Selected(FullIndex(), id) == Some(PassingEvidence(id).digest)
  {
    hide PassingEvidence;
    EntriesAt(21);
    SelectedAt(Entries(21), id - 1);
  }

  lemma {:induction false} ResultsFresh()
    ensures forall path :: path in Results() ==> ValidResult(Results()[path]) && ResultFresh(Results()[path], Files(), map[]) == Some(true)
  {}

  lemma {:induction false} EvidenceIsFresh(id: nat)
    ensures ValidEvidence(PassingEvidence(id)) && EvidenceFresh(PassingEvidence(id), Results(), Files(), map[]) == Some(true)
  {
    ResultsFresh();
    var e := PassingEvidence(id);
    assert e.body.resultRefs[0].testId == "TEST";
    assert RefsFresh(e, 1, Results(), Files(), map[]) == Some(true);
  }

  lemma {:induction false} EvidenceIsProved(gate: nat, id: nat)
    requires 1 <= id <= 21
    ensures EvidenceProof(CleanInputs(gate), id) == Some(true)
  {
    hide PassingEvidence, FullIndex, EvidenceFresh, ValidEvidence, CleanGate;
    IndexSelects(id);
    EvidenceIsFresh(id);
    assert CleanInputs(gate).evidence[id] == PassingEvidence(id);
    VerdictIsPass(id);
  }

  lemma VerdictIsPass(id: nat)
    ensures PassingEvidence(id).body.verdict == PASS
  {}

  lemma {:induction false} PrerequisitesProved(x: Inputs, gates: seq<nat>)
    requires forall i :: 0 <= i < |gates| ==> PrerequisiteProof(x, gates[i]) == Some(true)
    ensures PrerequisiteProofs(x, gates) == Some(true)
  {
    hide PrerequisiteProof;
    if gates != [] { PrerequisitesProved(x, gates[..|gates| - 1]); }
  }

  lemma {:induction false} RequiredInRange(gate: nat)
    ensures forall i :: 0 <= i < |Required(gate)| ==> 1 <= Required(gate)[i] <= 21
    ensures forall i :: 0 <= i < |Prerequisites(gate)| ==> 1 <= Prerequisites(gate)[i] < gate
  {}

  lemma {:induction false} CleanGateIsValid(gate: nat)
    requires 1 <= gate <= 6
    ensures ValidGate(CleanGate(gate)) && CleanGate(gate).body.decision == GO
  {
    hide PassingEvidence, FullIndex, Required, Prerequisites, PrerequisiteStates;
    PassedCompletely();
    hide AllPassed, CompleteOfficial, OfficialOk;
  }

  lemma {:induction false} PassedCompletely()
    ensures CompleteOfficial(AllPassed()) && OfficialOk(AllPassed())
    ensures forall k :: k in AllPassed() <==> 0 <= k < 12
    ensures forall k :: k in AllPassed() ==> AllPassed()[k] == Passed
  {}

  lemma {:induction false} IndexIsValid()
    ensures ValidIndex(FullIndex())
  {
    hide PassingEvidence;
    EntriesAt(21);
  }

  /** Every gate evaluates to GO on these records. */
  lemma {:induction false} CleanIsGo(gate: nat)
    requires 1 <= gate <= 6
    ensures Evaluate(CleanInputs(gate)) == Some(CleanGate(gate))
  {
    hide PassingEvidence, FullIndex, Required, Prerequisites, EvidenceProof, PrerequisiteProofs, ValidGate, ValidIndex, PrerequisiteStates, OfficialFor;
    var x := CleanInputs(gate);
    IndexIsValid();
    RequiredInRange(gate);
    forall i | 0 <= i < |Required(gate)|
      ensures EvidenceProof(x, Required(gate)[i]) == Some(true) && Selected(FullIndex(), Required(gate)[i]).Some?
    {
      EvidenceIsProved(gate, Required(gate)[i]);
      IndexSelects(Required(gate)[i]);
    }
    ProofsPointwise(x, Required(gate));
    forall i | 0 <= i < |Prerequisites(gate)|
      ensures PrerequisiteProof(x, Prerequisites(gate)[i]) == Some(true)
    {
      CleanGateIsValid(Prerequisites(gate)[i]);
    }
    PrerequisitesProved(x, Prerequisites(gate));
    CleanGateIsValid(gate);
    OfficialIsClean(gate);
  }

  lemma {:induction false} OfficialInRange(gate: nat)
    ensures forall i :: 0 <= i < |OfficialFor(gate)| ==> 0 <= OfficialFor(gate)[i] < 12
  {}

  lemma {:induction false} OfficialIsClean(gate: nat)
    ensures OtherProofs(CleanInputs(gate)) && OfficialOk(CleanInputs(gate).official)
  {
    hide PassingEvidence, FullIndex, OfficialFor, AllPassed, CompleteOfficial, OfficialOk, CleanGate, Results, Files;
    PassedCompletely();
    OfficialInRange(gate);
  }

  /** A change of file a makes EVD-001 stale and nothing else. */
  lemma {:induction false} StaleExactly(id: nat)
    ensures StaleResults({"a"}, Results()) == {"results/a"}
    ensures UsesAny(PassingEvidence(id), {"results/a"}) <==> id == 1
    ensures PassingEvidence(id).body.id == id
  {
    assert PassingResult("a").body.files[0].path == "a" && PassingResult("b").body.files[0].path == "b";
    assert PassingEvidence(id).body.resultRefs[0].path == if id == 1 then "results/a" else "results/b";
  }

  lemma {:induction false} NamesOfEvidence()
    ensures forall ref :: ref in ByPath() <==> 1 <= |ref| <= 21 && ref == NameOf(|ref|)
    ensures forall ref :: ref in ByPath() ==> ByPath()[ref] == PassingEvidence(|ref|)
    ensures NameOf(1) in ByPath() && |NameOf(1)| == 1
  {
    hide PassingEvidence;
    forall ref: string | 1 <= |ref| <= 21 && ref == NameOf(|ref|)
      ensures ref in ByPath()
    {}
    assert |NameOf(1)| == 1;
  }

  lemma {:induction false} OnlyFirstIsStale()
    ensures IdsOf(StaleEvidence({"results/a"}, ByPath()), ByPath()) == {1}
  {
    hide UsesAny, ByPath, NameOf, PassingEvidence, StaleResults, Results;
    NamesOfEvidence();
    forall ref | ref in ByPath()
      ensures UsesAny(ByPath()[ref], {"results/a"}) <==> |ref| == 1
      ensures ByPath()[ref].body.id == |ref|
    {
      StaleExactly(|ref|);
    }
    assert NameOf(1) in StaleEvidence({"results/a"}, ByPath());
  }

  lemma {:induction false} RecordsAreValid()
    ensures AllValid(Results(), ByPath(), CleanGates())
  {
    hide ByPath, CleanGate, ValidGate, ValidEvidence, PassingEvidence, ValidResult, ResultFresh, Results;
    NamesOfEvidence();
    ResultsFresh();
    forall ref | ref in ByPath()
      ensures ValidEvidence(ByPath()[ref])
    {
      EvidenceIsFresh(|ref|);
    }
    forall g: nat | 1 <= g <= 6
      ensures ValidGate(CleanGate(g))
    {
      CleanGateIsValid(g);
    }
  }

  lemma InputsAreClean(gate: nat)
    ensures CleanInputs(gate).gate == gate && CleanInputs(gate).results == Results()
  {}

  lemma {:induction false} HitsOfOne(g: nat)
    requires 1 <= g <= 6
    ensures Hits(g, {1}) <==> g in {1, 2, 3, 6}
  {
    hide Hits, Required;
    HitsEarly({1});
    HitsThird({1});
    HitsLate({1});
    HitsLast({1});
  }

  lemma {:induction false} CleanRunsAreGo()
    ensures SixGo(CleanRuns(), Results(), CleanGates())
  {
    hide Evaluate, CleanGate, CleanInputs, Results;
    forall i | 0 <= i < 6
      ensures Evaluate(CleanRuns()[i]) == Some(CleanGate(i + 1)) && CleanGate(i + 1).body.decision == GO
      ensures CleanRuns()[i].gate == i + 1 && CleanRuns()[i].results == Results()
    {
      CleanIsGo(i + 1);
      CleanGateIsValid(i + 1);
      InputsAreClean(i + 1);
    }
  }

  /**
   Six GO gates, complete evidence, and one changed file that only EVD-001 rests on: the listed
   gates are 1, 2, 3 and 6, while 4 and 5 keep standing on invalidated prerequisites.
   */
  lemma {:induction false} GatesFourAndFiveSkipped()
    ensures SixGo(CleanRuns(), Results(), CleanGates())
    ensures Invalidate({"a"}, Results(), ByPath(), CleanGates()).Some?
    ensures forall g: nat :: g in Invalidate({"a"}, Results(), ByPath(), CleanGates()).value.gates <==> g in {1, 2, 3, 6}
  {
    hide SixGo, Hits, CleanGates, ByPath, CleanRuns, AllValid, StaleResults, StaleEvidence, InvalidGates, Results;
    CleanRunsAreGo();
    RecordsAreValid();
    StaleExactly(1);
    OnlyFirstIsStale();
    ListedInRange({"a"}, Results(), ByPath(), CleanGates());
    forall g: nat | 1 <= g <= 6
      ensures g in Invalidate({"a"}, Results(), ByPath(), CleanGates()).value.gates <==> g in {1, 2, 3, 6}
    {
      ListedIffHit(CleanRuns(), {"a"}, Results(), ByPath(), CleanGates(), g);
      HitsOfOne(g);
    }
  }

  lemma {:induction false} ListedInRange(changed: set<string>, results: map<string, ValidationResult>, byPath: map<string, Evidence>, gates: map<nat, Gate>)
    requires Invalidate(changed, results, byPath, gates).Some?
    ensures forall g: nat :: g in Invalidate(changed, results, byPath, gates).value.gates ==> 1 <= g <= 6
  {
    hide AllValid, StaleResults, StaleEvidence;
    InvalidGatesExactly(gates, IdsOf(StaleEvidence(StaleResults(changed, results), byPath), byPath), 6);
  }
}
