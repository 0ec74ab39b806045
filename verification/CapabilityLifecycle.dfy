/** Capability lifecycle records: declared transitions, dependencies, and safety over every run of store operations. */
module CapabilityLifecycle {
  import opened Common
  import opened Text
  import opened Order

  datatype State =
    | DISCOVERED | CANDIDATE | SANDBOX | QUALIFIED | ACTIVE | DEGRADED | QUARANTINED
    | DISABLE_NEW_ASSIGNMENT | DRAINING | SUPERSEDED | DEPRECATED | RETIRED

  function Allowed(s: State): set<State> {
    match s
    case DISCOVERED => {CANDIDATE}
    case CANDIDATE => {SANDBOX, QUARANTINED}
    case SANDBOX => {QUALIFIED, QUARANTINED}
    case QUALIFIED => {ACTIVE, QUARANTINED}
    case ACTIVE => {DEGRADED, QUARANTINED, DISABLE_NEW_ASSIGNMENT, RETIRED}
    case DEGRADED => {ACTIVE, QUARANTINED, DISABLE_NEW_ASSIGNMENT}
    case QUARANTINED => {ACTIVE, DISABLE_NEW_ASSIGNMENT}
    case DISABLE_NEW_ASSIGNMENT => {DRAINING}
    case DRAINING => {SUPERSEDED, DEPRECATED, RETIRED}
    case SUPERSEDED => {RETIRED}
    case DEPRECATED => {RETIRED}
    case RETIRED => {}
  }

  /** `contract` is the contract id; `terms` and `health` are carried along unchanged. */
  datatype Body = Body(contract: string, terms: string, state: State, health: string, dependencies: seq<string>, evidence: seq<string>)

  /** SHA-256 of the unsigned record as an ideal digest. */
  datatype Digest = OfBody(body: Body) | Foreign(text: string)

  datatype Record = Record(body: Body, digest: Digest)

  predicate Valid(r: Record) {
    r.digest == OfBody(r.body)
  }

  // ---- Construction ----

  predicate AlphaNumeric(c: char) {
    'a' <= c <= 'z' || 'A' <= c <= 'Z' || '0' <= c <= '9'
  }

  predicate SafeTail(s: string) {
    s == "" || ((AlphaNumeric(s[0]) || s[0] in "._:/+-") && !(|s| > 1 && s[0] == '.' && s[1] == '.') && SafeTail(s[1..]))
  }

  /** `_safe`: the stripped text when it matches the identifier pattern. */
  function SafeText(value: string): Option<string> {
    var text := Strip(value);
    if text == "" || |text| > 256 || !AlphaNumeric(text[0]) || !SafeTail(text) then None else Some(text)
  }

  function SafeTexts(values: seq<string>): Option<seq<string>> {
    if values == [] then Some([])
    else
      match (SafeTexts(values[..|values| - 1]), SafeText(values[|values| - 1]))
      case (Some(earlier), Some(last)) => Some(earlier + [last])
      case _ => None
  }

  /** `_tuple` */
  function Identifiers(values: seq<string>): Option<seq<string>> {
    var texts := SafeTexts(values);
    if texts.Some? && HasDuplicate(texts.value) then None else texts
  }

  function Create(contract: string, terms: string, state: State, health: string, dependencies: seq<string>, evidence: seq<string>): Option<Record> {
    match (Identifiers(dependencies), Identifiers(evidence))
    case (Some(deps), Some(refs)) =>
      var body := Body(contract, terms, state, health, deps, refs);
      Some(Record(body, OfBody(body)))
    case _ => None
  }

  /** `transition_capability_lifecycle`; None where it raises. */
  function Transition(r: Record, target: State, evidence: seq<string>): Option<Record> {
    if target !in Allowed(r.body.state) then None
    else if target == RETIRED && r.body.dependencies != [] then None
    else
      match Identifiers(evidence)
      case None => None
      case Some(refs) =>
        if (target == RETIRED && refs == []) || !Valid(r) then None
        else Create(r.body.contract, r.body.terms, target, r.body.health, r.body.dependencies, AdjoinAll([], r.body.evidence + refs))
  }

  function WithDependencies(r: Record, ids: seq<string>): Option<Record> {
    if !Valid(r) then None else Create(r.body.contract, r.body.terms, r.body.state, r.body.health, ids, r.body.evidence)
  }

  // ---- Store operations on one record ----

  datatype Op =
    | Acquire(task: string)
    | Release(task: string)
    | BeginDrain(evidenceRef: string)
    | Move(target: State, evidence: seq<string>)

  predicate Disabled(s: State) {
    s == DISABLE_NEW_ASSIGNMENT || s == DRAINING || s == SUPERSEDED || s == DEPRECATED || s == RETIRED
  }

  function Dropping(ids: seq<string>, task: string): seq<string> {
    if ids == [] then []
    else Dropping(ids[..|ids| - 1], task) + if ids[|ids| - 1] == task then [] else [ids[|ids| - 1]]
  }

  /** The record an operation stores, or None when it raises and stores nothing. */
  function Perform(r: Record, op: Op): Option<Record> {
    match op
    case Acquire(task) =>
      if Disabled(r.body.state) then None
      else WithDependencies(r, Sorted(AdjoinAll([], r.body.dependencies + [task]), Leq))
    case Release(task) => WithDependencies(r, Dropping(r.body.dependencies, task))
    case BeginDrain(ref) =>
      if r.body.state !in {ACTIVE, DEGRADED, QUARANTINED} then None
      else
        var disabled := Transition(r, DISABLE_NEW_ASSIGNMENT, [ref]);
        if disabled.None? then None else Transition(disabled.value, DRAINING, [ref])
    case Move(target, evidence) => Transition(r, target, evidence)
  }

  /** The record after a list of operations; one that raises leaves it unchanged. */
  function After(r: Record, ops: seq<Op>): Record {
    if ops == [] then r
    else
      var before := After(r, ops[..|ops| - 1]);
      var next := Perform(before, ops[|ops| - 1]);
      if next.Some? then next.value else before
  }

  /** Number of operations that changed the lifecycle state. */
  function Moves(r: Record, ops: seq<Op>): nat {
    if ops == [] then 0
    else
      var init := ops[..|ops| - 1];
      Moves(r, init) + if After(r, ops).body.state != After(r, init).body.state then 1 else 0
  }

  // ---- Safety ----

  /** Steps left once assignment is disabled. */
  function Remaining(s: State): nat {
    match s
    case DISABLE_NEW_ASSIGNMENT => 3
    case DRAINING => 2
    case SUPERSEDED => 1
    case DEPRECATED => 1
    case _ => 0
  }

  lemma {:induction false} SafeTextsOfSafe(values: seq<string>)
    requires SafeTexts(values).Some?
    ensures |SafeTexts(values).value| == |values|
    ensures SafeTexts(values).value == [] <==> values == []
    ensures (forall v :: v in values ==> SafeText(v) == Some(v)) ==> SafeTexts(values).value == values
  {
    hide SafeText;
    if values != [] {
      var init := values[..|values| - 1];
      SafeTextsOfSafe(init);
      assert values == init + [values[|values| - 1]];
    }
  }

  lemma {:induction false} DroppingShrinks(ids: seq<string>, task: string)
    ensures forall x :: x in Dropping(ids, task) <==> x in ids && x != task
    ensures |Dropping(ids, task)| <= |ids|
  {
    if ids != [] {
      DroppingShrinks(ids[..|ids| - 1], task);
      assert ids == ids[..|ids| - 1] + [ids[|ids| - 1]];
    }
  }

  /** Stored dependency ids are already normalised, so storing them again changes nothing. */
  ghost predicate Stored(r: Record) {
    Valid(r) && forall v :: v in r.body.dependencies ==> SafeText(v) == Some(v)
  }

  lemma {:induction false} SafeTextIdempotent(value: string)
    requires SafeText(value).Some?
    ensures SafeText(SafeText(value).value) == SafeText(value)
  {
    StripTrims(value);
  }

  lemma {:induction false} SafeTextsAreSafe(values: seq<string>)
    requires SafeTexts(values).Some?
    ensures forall v :: v in SafeTexts(values).value ==> SafeText(v) == Some(v)
  {
    hide SafeText;
    if values != [] {
      SafeTextsAreSafe(values[..|values| - 1]);
      SafeTextIdempotent(values[|values| - 1]);
    }
  }

  lemma {:induction false} CreatedIsStored(contract: string, terms: string, state: State, health: string, dependencies: seq<string>, evidence: seq<string>)
    requires Create(contract, terms, state, health, dependencies, evidence).Some?
    ensures var r := Create(contract, terms, state, health, dependencies, evidence).value;
            && Stored(r) && r.body.state == state && r.body.contract == contract
            && ((forall v :: v in dependencies ==> SafeText(v) == Some(v)) ==> r.body.dependencies == dependencies)
            && (r.body.dependencies == [] <==> dependencies == [])
  {
    hide SafeText;
    SafeTextsOfSafe(dependencies);
    SafeTextsAreSafe(dependencies);
  }

  /** A transition changes only the state and the evidence. */
  lemma {:induction false} TransitionKeeps(r: Record, target: State, evidence: seq<string>)
    requires Stored(r) && Transition(r, target, evidence).Some?
    ensures var t := Transition(r, target, evidence).value;
            && Stored(t) && t.body.state == target && target in Allowed(r.body.state)
            && t.body.contract == r.body.contract && t.body.dependencies == r.body.dependencies
            && (target == RETIRED ==> t.body.dependencies == [])
  {
    hide SafeText, SafeTexts, AdjoinAll;
    var refs := Identifiers(evidence).value;
    CreatedIsStored(r.body.contract, r.body.terms, target, r.body.health, r.body.dependencies, AdjoinAll([], r.body.evidence + refs));
  }

  lemma {:induction false} DependenciesKeep(r: Record, ids: seq<string>)
    requires Stored(r) && WithDependencies(r, ids).Some?
    ensures var t := WithDependencies(r, ids).value;
            && Stored(t) && t.body.state == r.body.state && t.body.contract == r.body.contract
            && ((forall v :: v in ids ==> SafeText(v) == Some(v)) ==> t.body.dependencies == ids)
  {
    hide SafeText, SafeTexts;
    CreatedIsStored(r.body.contract, r.body.terms, r.body.state, r.body.health, ids, r.body.evidence);
  }

  /** The step facts behind the run results. */
  lemma {:induction false} PerformKeeps(r: Record, op: Op)
    requires Stored(r) && Perform(r, op).Some?
    ensures var t := Perform(r, op).value;
            && Stored(t) && t.body.contract == r.body.contract
            && (t.body.state == RETIRED && r.body.state != RETIRED ==> t.body.dependencies == [])
            && (Disabled(r.body.state) ==>
                  && Disabled(t.body.state)
                  && (forall v :: v in t.body.dependencies ==> v in r.body.dependencies)
                  && Remaining(t.body.state) + (if t.body.state != r.body.state then 1 else 0) <= Remaining(r.body.state))
  {
    hide SafeText, SafeTexts, Transition, WithDependencies, Sorted, AdjoinAll;
    match op
    case Acquire(task) =>
      DependenciesKeep(r, Sorted(AdjoinAll([], r.body.dependencies + [task]), Leq));
    case Release(task) =>
      DroppingShrinks(r.body.dependencies, task);
      DependenciesKeep(r, Dropping(r.body.dependencies, task));
    case BeginDrain(ref) =>
      TransitionKeeps(r, DISABLE_NEW_ASSIGNMENT, [ref]);
      TransitionKeeps(Transition(r, DISABLE_NEW_ASSIGNMENT, [ref]).value, DRAINING, [ref]);
    case Move(target, evidence) =>
      TransitionKeeps(r, target, evidence);
  }

  ghost predicate RetiredIsFree(r: Record) {
    r.body.state == RETIRED ==> r.body.dependencies == []
  }

  lemma {:induction false} StoredAfter(r: Record, ops: seq<Op>)
    requires Stored(r) && RetiredIsFree(r)
    ensures Stored(After(r, ops)) && After(r, ops).body.contract == r.body.contract && RetiredIsFree(After(r, ops))
  {
    hide Perform, Stored;
    if ops != [] {
      var before := After(r, ops[..|ops| - 1]);
      StoredAfter(r, ops[..|ops| - 1]);
      if Perform(before, ops[|ops| - 1]).Some? {
        PerformKeeps(before, ops[|ops| - 1]);
        RetiredStaysFree(before, ops[|ops| - 1]);
      }
    }
  }

  lemma {:induction false} RetiredStaysFree(r: Record, op: Op)
    requires Stored(r) && RetiredIsFree(r) && Perform(r, op).Some?
    ensures RetiredIsFree(Perform(r, op).value)
  {
    hide Perform;
    PerformKeeps(r, op);
    var deps := Perform(r, op).value.body.dependencies;
    assert deps != [] ==> deps[0] in deps;
  }

  /** Over every run of operations, a retired capability has no active dependencies. */
  lemma {:induction false} RetiredHasNoDependencies(r: Record, ops: seq<Op>)
    requires Stored(r) && RetiredIsFree(r)
    ensures After(r, ops).body.state == RETIRED ==> After(r, ops).body.dependencies == []
  {
    StoredAfter(r, ops);
  }

  /**
   Once new assignment is disabled it stays disabled, the dependency set only shrinks, and at most
   three more lifecycle transitions can happen, over every run.
   */
  lemma {:induction false} DrainIsOneWay(r: Record, ops: seq<Op>)
    requires Stored(r) && RetiredIsFree(r) && Disabled(r.body.state)
    ensures var t := After(r, ops);
            && Disabled(t.body.state)
            && (forall v :: v in t.body.dependencies ==> v in r.body.dependencies)
            && Moves(r, ops) + Remaining(t.body.state) <= Remaining(r.body.state) <= 3
  {
    hide Perform, Stored;
    if ops != [] {
      var init := ops[..|ops| - 1];
      DrainIsOneWay(r, init);
      StoredAfter(r, init);
      if Perform(After(r, init), ops[|ops| - 1]).Some? {
        PerformKeeps(After(r, init), ops[|ops| - 1]);
      }
    }
  }

  /** Three is attained: disable, drain, supersede, retire. */
  lemma {:induction false} ThreeMovesAreReached(r: Record, ref: string)
    requires Stored(r) && r.body.state == DISABLE_NEW_ASSIGNMENT && r.body.dependencies == [] && r.body.evidence == [] && SafeText(ref) == Some(ref)
    ensures var ops := [Move(DRAINING, [ref]), Move(SUPERSEDED, [ref]), Move(RETIRED, [ref])];
            After(r, ops).body.state == RETIRED && Moves(r, ops) == 3
  {
    var ops := [Move(DRAINING, [ref]), Move(SUPERSEDED, [ref]), Move(RETIRED, [ref])];
    hide SafeText, SafeTexts, HasDuplicate;
    OneRef(ref);
    assert AdjoinAll([], [] + [ref]) == [ref] by { assert [] + [ref] == [ref] && [ref][1..] == []; }
    assert AdjoinAll([], [ref] + [ref]) == [ref] by {
      assert ([ref] + [ref])[0] == ref && ([ref] + [ref])[1..] == [ref] && [ref][1..] == [] && [] + [ref] == [ref];
      assert AdjoinAll([], [ref] + [ref]) == AdjoinAll([ref], [ref]) == AdjoinAll([ref], []);
    }
    var r1 := Transition(r, DRAINING, [ref]).value;
    var r2 := Transition(r1, SUPERSEDED, [ref]).value;
    var r3 := Transition(r2, RETIRED, [ref]).value;
    assert ops[..1][..0] == [] && ops[..2][..1] == ops[..1];
    assert After(r, ops[..1]) == r1 && Moves(r, ops[..1]) == 1;
    assert After(r, ops[..2]) == r2 && Moves(r, ops[..2]) == 2;
  }

  lemma {:induction false} OneRef(ref: string)
    requires SafeText(ref) == Some(ref)
    ensures Identifiers([ref]) == Some([ref]) && Identifiers([]) == Some([])
  {
    hide SafeText;
    assert [ref][..0] == [];
    assert SafeTexts([ref]) == Some([] + [ref]);
    assert !HasDuplicate([ref]);
  }
}
