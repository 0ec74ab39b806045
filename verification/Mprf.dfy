/** Provider and model registry, lifecycle facts, and the eligibility snapshot exported to the router. */
module Mprf {
  import opened Common
  import opened Order

  datatype AdmissionState = ADMITTED | DISABLED
  datatype Admission = Admission(id: string, provider: string, model: string, version: int, state: AdmissionState)
  datatype Model = Model(provider: string, ref: string)
  datatype Registry = Registry(version: int, providers: seq<string>, models: seq<Model>, admissions: seq<Admission>)

  function Same<T>(x: T): T { x }
  function AdmissionId(a: Admission): string { a.id }
  function AdmissionKey(a: Admission): (string, string, int) { (a.provider, a.model, a.version) }

  /** What holds of each admission against the registry. */
  predicate AdmissionFits(r: Registry, a: Admission) {
    Model(a.provider, a.model) in r.models && a.version <= r.version
  }

  /** At most one admission per provider is bound to the current registry version. */
  ghost predicate OneCurrentPerProvider(r: Registry) {
    forall i, j :: 0 <= i < j < |r.admissions| && r.admissions[i].version == r.version == r.admissions[j].version ==>
      r.admissions[i].provider != r.admissions[j].provider
  }

  /** What the registry constructor guarantees; that models are named is checked by the admission record itself. */
  ghost predicate ValidRegistry(r: Registry) {
    && r.version >= 1 && r.providers != [] && DistinctBy(r.providers, Same) && DistinctBy(r.models, Same)
    && (forall i :: 0 <= i < |r.models| ==> r.models[i].provider in r.providers)
    && DistinctBy(r.admissions, AdmissionId) && DistinctBy(r.admissions, AdmissionKey)
    && (forall i :: 0 <= i < |r.admissions| ==> AdmissionFits(r, r.admissions[i]) && r.admissions[i].model != "")
    && OneCurrentPerProvider(r)
  }

  /** The constructor's loop over the admissions: it accepts exactly the lists that meet its four conditions. */
  method CheckAdmissions(r: Registry) returns (ok: bool)
    ensures ok <==> DistinctBy(r.admissions, AdmissionKey) && OneCurrentPerProvider(r)
                    && forall i :: 0 <= i < |r.admissions| ==>
                         r.admissions[i].version <= r.version && Model(r.admissions[i].provider, r.admissions[i].model) in r.models
  {
    hide AdmissionKey;
    var keys: set<(string, string, int)>, current: set<string>, i := {}, {}, 0;
    while i < |r.admissions|
      invariant 0 <= i <= |r.admissions|
      invariant keys == set k | 0 <= k < i :: AdmissionKey(r.admissions[k])
      invariant current == set k | 0 <= k < i && r.admissions[k].version == r.version :: r.admissions[k].provider
      invariant DistinctBy(r.admissions[..i], AdmissionKey)
      invariant OneCurrentPerProvider(r.(admissions := r.admissions[..i]))
      invariant forall k :: 0 <= k < i ==> AdmissionFits(r, r.admissions[k])
    {
      var item := r.admissions[i];
      if AdmissionKey(item) in keys { return false; }
      keys := keys + {AdmissionKey(item)};
      if !AdmissionFits(r, item) { return false; }
      if item.version == r.version {
        if item.provider in current { return false; }
        current := current + {item.provider};
      }
      i := i + 1;
    }
    assert r.admissions[..i] == r.admissions;
    return true;
  }

  // ---- Admission facts ----

  datatype Reason =
    | ADMITTED_REASON | UNKNOWN_PROVIDER | UNKNOWN_MODEL | NO_ADMISSION | STALE_ADMISSION | ADMISSION_DISABLED
    | LIFECYCLE_OK | STALE_LIFECYCLE_VERSION | STALE_HEALTH | UNKNOWN_HEALTH | QUOTA_EXHAUSTED | UNKNOWN_QUOTA
    | RATE_LIMITED | UNKNOWN_RATE | CAPABILITY_MISSING

  datatype Eligibility = Eligibility(provider: string, model: string, version: int, eligible: bool, reason: Reason, admission: string)

  /** The admissions of a provider, optionally of one model ("" names none), in registry order. */
  function History(admissions: seq<Admission>, provider: string, model: string): seq<Admission> {
    if admissions == [] then []
    else
      var rest := History(admissions[1..], provider, model);
      if admissions[0].provider == provider && (model == "" || admissions[0].model == model) then [admissions[0]] + rest else rest
  }

  function Current(admissions: seq<Admission>, version: int): seq<Admission> {
    if admissions == [] then []
    else if admissions[0].version == version then [admissions[0]] + Current(admissions[1..], version)
    else Current(admissions[1..], version)
  }

  /** `eligibility_fact` */
  function EligibilityFact(r: Registry, provider: string, model: string): Eligibility {
    var history := History(r.admissions, provider, model);
    var current := Current(history, r.version);
    if provider !in r.providers then Eligibility(provider, model, r.version, false, UNKNOWN_PROVIDER, "")
    else if model != "" && Model(provider, model) !in r.models then Eligibility(provider, model, r.version, false, UNKNOWN_MODEL, "")
    else if current == [] then
      var stale := if model != "" then model else if history != [] then history[|history| - 1].model else "";
      Eligibility(provider, stale, r.version, false, if history != [] then STALE_ADMISSION else NO_ADMISSION, "")
    else if current[0].state == DISABLED then Eligibility(provider, current[0].model, r.version, false, ADMISSION_DISABLED, current[0].id)
    else Eligibility(provider, current[0].model, r.version, true, ADMITTED_REASON, current[0].id)
  }

  // ---- Lifecycle facts ----

  datatype Level = Good | Bad | Unknown

  /** Health is HEALTHY/STALE/UNKNOWN, quota AVAILABLE/EXHAUSTED/UNKNOWN, rate AVAILABLE/LIMITED/UNKNOWN. */
  datatype Fact = Fact(provider: string, model: string, registryVersion: int, lifecycleVersion: int, health: Level, quota: Level, rate: Level, capabilities: set<string>)

  function EvaluateLifecycle(f: Fact, required: set<string>, expectedRegistry: Option<int>, minimumLifecycle: Option<int>): (bool, Reason) {
    if expectedRegistry.Some? && f.registryVersion != expectedRegistry.value then (false, STALE_LIFECYCLE_VERSION)
    else if minimumLifecycle.Some? && f.lifecycleVersion < minimumLifecycle.value then (false, STALE_LIFECYCLE_VERSION)
    else if f.health == Bad then (false, STALE_HEALTH)
    else if f.health != Good then (false, UNKNOWN_HEALTH)
    else if f.quota == Bad then (false, QUOTA_EXHAUSTED)
    else if f.quota != Good then (false, UNKNOWN_QUOTA)
    else if f.rate == Bad then (false, RATE_LIMITED)
    else if f.rate != Good then (false, UNKNOWN_RATE)
    else if !(required <= f.capabilities) then (false, CAPABILITY_MISSING)
    else (true, LIFECYCLE_OK)
  }

  datatype Lifecycle = Lifecycle(version: int, facts: seq<Fact>)

  function Identity(f: Fact): (string, string) { (f.provider, f.model) }

  ghost predicate ValidLifecycle(l: Lifecycle) {
    l.version >= 1 && DistinctBy(l.facts, Identity)
  }

  /** `fact_for` */
  function FactFor(facts: seq<Fact>, provider: string, model: string): Option<Fact> {
    if facts == [] then None
    else if facts[0].provider == provider && facts[0].model == model then Some(facts[0])
    else FactFor(facts[1..], provider, model)
  }

  predicate IdentityLeq(a: Fact, b: Fact) {
    if a.provider != b.provider then Leq(a.provider, b.provider) else Leq(a.model, b.model)
  }

  function Without(facts: seq<Fact>, id: (string, string)): seq<Fact> {
    if facts == [] then []
    else if Identity(facts[0]) == id then Without(facts[1..], id)
    else [facts[0]] + Without(facts[1..], id)
  }

  /** `LifecycleStateV1.transition`; None where it raises. */
  function Advance(l: Lifecycle, next: Fact): Option<Lifecycle> {
    var current := FactFor(l.facts, next.provider, next.model);
    var follows :=
      if current.None? then next.lifecycleVersion == 1
      else if next.registryVersion == current.value.registryVersion then next.lifecycleVersion == current.value.lifecycleVersion + 1
      else next.registryVersion > current.value.registryVersion && next.lifecycleVersion == 1;
    if !follows then None
    else Some(Lifecycle(l.version + 1, Sorted(Without(l.facts, Identity(next)) + [next], IdentityLeq)))
  }

  lemma {:induction false} FactForExactly(facts: seq<Fact>, provider: string, model: string)
    requires DistinctBy(facts, Identity)
    ensures forall f :: FactFor(facts, provider, model) == Some(f) <==> f in facts && f.provider == provider && f.model == model
  {
    if facts != [] {
      DistinctTail(facts);
      FactForExactly(facts[1..], provider, model);
      assert facts == [facts[0]] + facts[1..];
      forall f | f in facts[1..]
        ensures Identity(f) != Identity(facts[0])
      {
        var j :| 0 <= j < |facts[1..]| && facts[1..][j] == f;
        assert Identity(facts[0]) != Identity(facts[j + 1]);
      }
    }
  }

  lemma DistinctTail(facts: seq<Fact>)
    requires DistinctBy(facts, Identity) && facts != []
    ensures DistinctBy(facts[1..], Identity)
  {}

  lemma {:induction false} WithoutExactly(facts: seq<Fact>, id: (string, string))
    requires DistinctBy(facts, Identity)
    ensures forall f :: f in Without(facts, id) <==> f in facts && Identity(f) != id
    ensures DistinctBy(Without(facts, id), Identity)
  {
    if facts != [] {
      DistinctTail(facts);
      WithoutExactly(facts[1..], id);
      assert facts == [facts[0]] + facts[1..];
      var rest := Without(facts[1..], id);
      forall j | 0 <= j < |rest|
        ensures Identity(rest[j]) != Identity(facts[0])
      {
        assert rest[j] in facts[1..];
        var k :| 0 <= k < |facts[1..]| && facts[1..][k] == rest[j];
        assert Identity(facts[0]) != Identity(facts[k + 1]);
      }
    }
  }

  /** Version order of facts: registry version first, lifecycle version second. */
  predicate Newer(a: Fact, b: Fact) {
    a.registryVersion > b.registryVersion || (a.registryVersion == b.registryVersion && a.lifecycleVersion > b.lifecycleVersion)
  }

  /** The facts after a transition: the new one for its identity, every other one untouched, identities still distinct, sorted. */
  lemma {:induction false} AdvanceReplacesOne(l: Lifecycle, next: Fact)
    requires ValidLifecycle(l) && Advance(l, next).Some?
    ensures ValidLifecycle(Advance(l, next).value) && Advance(l, next).value.version == l.version + 1
    ensures SortedBy(Advance(l, next).value.facts, IdentityLeq)
    ensures forall p, m :: FactFor(Advance(l, next).value.facts, p, m) ==
                           if (p, m) == Identity(next) then Some(next) else FactFor(l.facts, p, m)
    ensures var old' := FactFor(l.facts, next.provider, next.model); old'.Some? ==> Newer(next, old'.value)
  {
    hide IdentityLeq;
    var kept := Without(l.facts, Identity(next));
    var all := kept + [next];
    var facts := Sorted(all, IdentityLeq);
    WithoutExactly(l.facts, Identity(next));
    assert forall i :: 0 <= i < |kept| ==> kept[i] in kept;
    assert DistinctBy(all, Identity);
    SortedPermutes(all, IdentityLeq);
    DistinctByPermutes(all, facts, Identity);
    IdentityLeqTotal();
    SortedSorts(all, IdentityLeq);
    forall p, m
      ensures FactFor(facts, p, m) == if (p, m) == Identity(next) then Some(next) else FactFor(l.facts, p, m)
    {
      FactForExactly(facts, p, m);
      FactForExactly(l.facts, p, m);
      SameMembers(facts, all);
      var a, b := FactFor(facts, p, m), if (p, m) == Identity(next) then Some(next) else FactFor(l.facts, p, m);
      assert a.Some? ==> a == Some(a.value);
      assert b.Some? ==> b == Some(b.value);
    }
  }

  lemma {:induction false} IdentityLeqTotal()
    ensures TotalOrder(IdentityLeq)
  {
    forall x: Fact, y: Fact
      ensures IdentityLeq(x, y) || IdentityLeq(y, x)
    {
      LeqTotal(x.provider, y.provider);
      LeqTotal(x.model, y.model);
    }
    forall x: Fact, y: Fact, z: Fact | IdentityLeq(x, y) && IdentityLeq(y, z)
      ensures IdentityLeq(x, z)
    {
      if x.provider != y.provider && y.provider != z.provider {
        LeqTransitive(x.provider, y.provider, z.provider);
        if x.provider == z.provider { LeqAntisymmetric(x.provider, y.provider); }
      } else if x.provider == y.provider == z.provider {
        LeqTransitive(x.model, y.model, z.model);
      }
    }
  }

  /** The lifecycle after a list of attempted transitions; one that raises changes nothing. */
  function AfterAll(l: Lifecycle, nexts: seq<Fact>): Lifecycle {
    if nexts == [] then l
    else
      var before := AfterAll(l, nexts[..|nexts| - 1]);
      var after := Advance(before, nexts[|nexts| - 1]);
      if after.Some? then after.value else before
  }

  /** Over every run of transitions a known identity stays known, its version pair never falls, and it rises whenever its fact changes. */
  lemma {:induction false} VersionsNeverFall(l: Lifecycle, nexts: seq<Fact>, provider: string, model: string)
    requires ValidLifecycle(l) && FactFor(l.facts, provider, model).Some?
    ensures ValidLifecycle(AfterAll(l, nexts)) && FactFor(AfterAll(l, nexts).facts, provider, model).Some?
    ensures var f, f' := FactFor(l.facts, provider, model).value, FactFor(AfterAll(l, nexts).facts, provider, model).value;
            f' == f || Newer(f', f)
  {
    hide Advance, ValidLifecycle;
    if nexts != [] {
      VersionsNeverFall(l, nexts[..|nexts| - 1], provider, model);
      var before := AfterAll(l, nexts[..|nexts| - 1]);
      if Advance(before, nexts[|nexts| - 1]).Some? {
        AdvanceReplacesOne(before, nexts[|nexts| - 1]);
      }
    }
  }

  // ---- The runtime facade ----

  /** `lifecycle_eligibility` */
  function LifecycleEligibility(r: Registry, l: Option<Lifecycle>, provider: string, model: string, required: set<string>): (bool, Reason) {
    var admission := EligibilityFact(r, provider, model);
    if !admission.eligible then (false, admission.reason)
    else if l.None? then (true, LIFECYCLE_OK)
    else
      match FactFor(l.value.facts, admission.provider, admission.model)
      case None => (false, UNKNOWN_HEALTH)
      case Some(fact) => EvaluateLifecycle(fact, required, Some(r.version), None)
  }

  datatype RouterSnapshot = RouterSnapshot(eligible: map<string, bool>, models: map<string, string>)

  /** `export_router_snapshot`: the loop over the registry's providers fills two dictionaries. */
  method ExportRouterSnapshot(r: Registry, l: Option<Lifecycle>, required: set<string>) returns (s: RouterSnapshot)
    ensures s.eligible.Keys == set p | p in r.providers
    ensures forall p :: p in r.providers ==> s.eligible[p] == ExportedEligible(r, l, p, required)
    ensures s.models.Keys == set p | p in r.providers && ExportedEligible(r, l, p, required)
    ensures forall p :: p in s.models ==> s.models[p] == EligibilityFact(r, p, "").model
  {
    hide EligibilityFact, LifecycleEligibility;
    var eligible: map<string, bool>, models: map<string, string>, i := map[], map[], 0;
    while i < |r.providers|
      invariant 0 <= i <= |r.providers|
      invariant eligible.Keys == set p | p in r.providers[..i]
      invariant forall p :: p in r.providers[..i] ==> eligible[p] == ExportedEligible(r, l, p, required)
      invariant models.Keys == set p | p in r.providers[..i] && ExportedEligible(r, l, p, required)
      invariant forall p :: p in models ==> models[p] == EligibilityFact(r, p, "").model
    {
      var p := r.providers[i];
      assert r.providers[..i + 1] == r.providers[..i] + [p];
      var admission := EligibilityFact(r, p, "");
      if !admission.eligible {
        eligible := eligible[p := false];
      } else {
        var ok := l.None? || LifecycleEligibility(r, l, p, admission.model, required).0;
        eligible := eligible[p := ok];
        if ok { models := models[p := admission.model]; }
      }
      i := i + 1;
    }
    assert r.providers[..i] == r.providers;
    s := RouterSnapshot(eligible, models);
  }

  /** What the export asks of one provider: its admission without naming a model, then the lifecycle of that model. */
  predicate ExportedEligible(r: Registry, l: Option<Lifecycle>, provider: string, required: set<string>) {
    var admission := EligibilityFact(r, provider, "");
    admission.eligible && (l.None? || LifecycleEligibility(r, l, provider, admission.model, required).0)
  }

  // ---- Export and query agree ----

  lemma {:induction false} HistoryExactly(admissions: seq<Admission>, provider: string, model: string)
    ensures forall a :: a in History(admissions, provider, model) <==> a in admissions && a.provider == provider && (model == "" || a.model == model)
  {
    if admissions != [] {
      HistoryExactly(admissions[1..], provider, model);
      assert admissions == [admissions[0]] + admissions[1..];
    }
  }

  lemma {:induction false} CurrentExactly(admissions: seq<Admission>, version: int)
    ensures forall a :: a in Current(admissions, version) <==> a in admissions && a.version == version
  {
    if admissions != [] {
      CurrentExactly(admissions[1..], version);
      assert admissions == [admissions[0]] + admissions[1..];
    }
  }

  /** `a` is the admission of this provider at the current registry version. */
  ghost predicate IsCurrent(r: Registry, provider: string, a: Admission) {
    a in r.admissions && a.provider == provider && a.version == r.version
  }

  lemma {:induction false} CurrentIsUnique(r: Registry, provider: string, a: Admission, b: Admission)
    requires ValidRegistry(r) && IsCurrent(r, provider, a) && IsCurrent(r, provider, b)
    ensures a == b
  {
    var i :| 0 <= i < |r.admissions| && r.admissions[i] == a;
    var j :| 0 <= j < |r.admissions| && r.admissions[j] == b;
    assert i == j;
  }

  /** An eligible fact comes from the provider's one current admission, which is ADMITTED; any matching current admission decides. */
  lemma {:induction false} FactFollowsCurrent(r: Registry, provider: string, model: string, a: Admission)
    requires ValidRegistry(r) && IsCurrent(r, provider, a)
    ensures EligibilityFact(r, provider, model).eligible <==> a.state == ADMITTED && (model == "" || model == a.model)
    ensures EligibilityFact(r, provider, model).eligible ==>
              EligibilityFact(r, provider, model) == Eligibility(provider, a.model, r.version, true, ADMITTED_REASON, a.id)
  {
    var history := History(r.admissions, provider, model);
    var current := Current(history, r.version);
    HistoryExactly(r.admissions, provider, model);
    CurrentExactly(history, r.version);
    if current != [] {
      assert current[0] in current;
      CurrentIsUnique(r, provider, current[0], a);
    }
    var i :| 0 <= i < |r.admissions| && r.admissions[i] == a;
    assert AdmissionFits(r, r.admissions[i]);
    if model == "" || model == a.model { assert a in current; }
    ModelProviderKnown(r, provider, a);
  }

  lemma {:induction false} ModelProviderKnown(r: Registry, provider: string, a: Admission)
    requires ValidRegistry(r) && IsCurrent(r, provider, a)
    ensures provider in r.providers && Model(provider, a.model) in r.models && a.model != ""
  {
    var i :| 0 <= i < |r.admissions| && r.admissions[i] == a;
    assert AdmissionFits(r, r.admissions[i]);
    var k :| 0 <= k < |r.models| && r.models[k] == Model(provider, a.model);
    assert r.models[k].provider in r.providers;
  }

  lemma {:induction false} EligibleNeedsCurrent(r: Registry, provider: string, model: string)
    requires EligibilityFact(r, provider, model).eligible
    ensures exists a :: IsCurrent(r, provider, a)
  {
    var history := History(r.admissions, provider, model);
    var current := Current(history, r.version);
    HistoryExactly(r.admissions, provider, model);
    CurrentExactly(history, r.version);
    assert current[0] in current;
    assert IsCurrent(r, provider, current[0]);
  }

  /**
   The exported snapshot and the pointwise query agree: a provider is exported as eligible exactly
   when the query says so without naming a model, and exactly when it says so for some named model,
   which is then the exported one; its fact is bound to the current registry version.
   */
  lemma {:induction false} ExportAgreesWithQuery(r: Registry, l: Option<Lifecycle>, provider: string, required: set<string>)
    requires ValidRegistry(r)
    ensures ExportedEligible(r, l, provider, required) <==> LifecycleEligibility(r, l, provider, "", required).0
    ensures forall model :: model != "" && LifecycleEligibility(r, l, provider, model, required).0 ==>
              ExportedEligible(r, l, provider, required) && EligibilityFact(r, provider, "").model == model
    ensures ExportedEligible(r, l, provider, required) ==>
              var fact := EligibilityFact(r, provider, "");
              && fact.model != "" && LifecycleEligibility(r, l, provider, fact.model, required).0
              && exists a :: IsCurrent(r, provider, a) && fact.model == a.model && fact.admission == a.id && fact.version == a.version == r.version
    ensures ExportedEligible(r, l, provider, required) && l.Some? ==>
              var f := FactFor(l.value.facts, provider, EligibilityFact(r, provider, "").model);
              f.Some? && f.value.registryVersion == r.version
  {
    hide EligibilityFact, ValidRegistry, FactFor, EvaluateLifecycle;
    EvaluateBindsVersion();
    if exists a :: IsCurrent(r, provider, a) {
      var a :| IsCurrent(r, provider, a);
      FactFollowsCurrent(r, provider, "", a);
      FactFollowsCurrent(r, provider, a.model, a);
      ModelProviderKnown(r, provider, a);
      forall model | model != "" && LifecycleEligibility(r, l, provider, model, required).0
        ensures ExportedEligible(r, l, provider, required) && EligibilityFact(r, provider, "").model == model
      {
        FactFollowsCurrent(r, provider, model, a);
      }
    } else {
      forall model
        ensures !EligibilityFact(r, provider, model).eligible
      {
        if EligibilityFact(r, provider, model).eligible { EligibleNeedsCurrent(r, provider, model); }
      }
    }
  }

  /** A lifecycle evaluation against a registry version succeeds only for a fact bound to it. */
  lemma EvaluateBindsVersion()
    ensures forall f, required, version :: EvaluateLifecycle(f, required, Some(version), None).0 ==> f.registryVersion == version
  {}

  // ---- Every answer and its reason ----

  /** `evaluate_lifecycle`: eligible exactly when everything is in order, and each reason names the first thing that is not. */
  lemma {:induction false} EvaluatesExactly(f: Fact, required: set<string>, expectedRegistry: Option<int>, minimumLifecycle: Option<int>)
    ensures var (eligible, reason) := EvaluateLifecycle(f, required, expectedRegistry, minimumLifecycle);
            var bound := (expectedRegistry == None || expectedRegistry == Some(f.registryVersion))
                         && forall v :: minimumLifecycle == Some(v) ==> v <= f.lifecycleVersion;
            && (eligible <==> bound && f.health == f.quota == f.rate == Good && forall c :: c in required ==> c in f.capabilities)
            && (reason == LIFECYCLE_OK <==> eligible)
            && (reason == STALE_LIFECYCLE_VERSION <==> !bound)
            && (reason == STALE_HEALTH <==> bound && f.health == Bad) && (reason == UNKNOWN_HEALTH <==> bound && f.health == Unknown)
            && (reason == QUOTA_EXHAUSTED <==> bound && f.health == Good && f.quota == Bad)
            && (reason == UNKNOWN_QUOTA <==> bound && f.health == Good && f.quota == Unknown)
            && (reason == RATE_LIMITED <==> bound && f.health == f.quota == Good && f.rate == Bad)
            && (reason == UNKNOWN_RATE <==> bound && f.health == f.quota == Good && f.rate == Unknown)
            && (reason == CAPABILITY_MISSING <==> bound && f.health == f.quota == f.rate == Good && exists c :: c in required && c !in f.capabilities)
  {
    assert required <= f.capabilities <==> forall c :: c in required ==> c in f.capabilities;
    if minimumLifecycle.Some? { assert minimumLifecycle == Some(minimumLifecycle.value); }
  }

  /** A transition is accepted exactly for a first fact with version 1, the next version, or version 1 under a newer registry. */
  lemma {:induction false} AdvanceExactly(l: Lifecycle, next: Fact)
    requires ValidLifecycle(l)
    ensures Advance(l, next).Some? <==>
            || (next.lifecycleVersion == 1 && forall f :: f in l.facts ==> Identity(f) != Identity(next))
            || exists f :: f in l.facts && Identity(f) == Identity(next)
                           && if next.registryVersion == f.registryVersion then next.lifecycleVersion == f.lifecycleVersion + 1
                              else f.registryVersion < next.registryVersion && next.lifecycleVersion == 1
  {
    hide Sorted, FactFor;
    FactForExactly(l.facts, next.provider, next.model);
    var current := FactFor(l.facts, next.provider, next.model);
    if current.Some? {
      assert current.value in l.facts && Identity(current.value) == Identity(next);
    } else {
      assert forall f :: f in l.facts && Identity(f) == Identity(next) ==> FactFor(l.facts, next.provider, next.model) == Some(f);
    }
  }

  /** An admission of the provider, and of the model where one is named. */
  predicate Concerns(a: Admission, provider: string, model: string) {
    a.provider == provider && (model == "" || a.model == model)
  }

  /** The first of these admissions that concerns the query and has this version stands at `i`. */
  ghost predicate FirstBound(admissions: seq<Admission>, provider: string, model: string, version: int, i: nat)
    requires i < |admissions|
  {
    && Concerns(admissions[i], provider, model) && admissions[i].version == version
    && forall k :: 0 <= k < i && admissions[k].version == version ==> !Concerns(admissions[k], provider, model)
  }

  /** The last of these admissions that concerns the query stands at `i`. */
  ghost predicate LastConcerned(admissions: seq<Admission>, provider: string, model: string, i: nat)
    requires i < |admissions|
  {
    Concerns(admissions[i], provider, model) && forall k :: i < k < |admissions| ==> !Concerns(admissions[k], provider, model)
  }

  /** The admission that decides a query: the first current one that concerns it. */
  ghost predicate Decides(r: Registry, provider: string, model: string, i: nat)
    requires i < |r.admissions|
  {
    FirstBound(r.admissions, provider, model, r.version, i)
  }

  lemma {:induction false} CurrentUnfold(a: Admission, rest: seq<Admission>, provider: string, model: string, version: int)
    ensures Current(History([a] + rest, provider, model), version) ==
            (if Concerns(a, provider, model) && a.version == version then [a] else []) + Current(History(rest, provider, model), version)
  {
    assert ([a] + rest)[1..] == rest;
    if Concerns(a, provider, model) {
      assert ([a] + History(rest, provider, model))[1..] == History(rest, provider, model);
    }
  }

  lemma {:induction false} FirstCurrent(admissions: seq<Admission>, provider: string, model: string, version: int)
    ensures var current := Current(History(admissions, provider, model), version);
            && (current == [] ==> forall i :: 0 <= i < |admissions| ==> !FirstBound(admissions, provider, model, version, i))
            && (current != [] ==> exists i :: 0 <= i < |admissions| && current[0] == admissions[i] && FirstBound(admissions, provider, model, version, i))
  {
    if admissions != [] {
      var a, rest := admissions[0], admissions[1..];
      FirstCurrent(rest, provider, model, version);
      CurrentUnfold(a, rest, provider, model, version);
      assert admissions == [a] + rest;
      hide Current, History, Concerns;
      if Concerns(a, provider, model) && a.version == version {
        assert FirstBound(admissions, provider, model, version, 0);
      } else {
        forall i | 0 <= i < |rest|
          ensures FirstBound(admissions, provider, model, version, i + 1) <==> FirstBound(rest, provider, model, version, i)
        {
          BoundBehind(a, rest, provider, model, version, i);
        }
        forall i | 0 <= i < |admissions| && FirstBound(admissions, provider, model, version, i)
          ensures FirstBound(rest, provider, model, version, i - 1)
        {
        }
      }
    }
  }

  lemma {:induction false} BoundBehind(a: Admission, rest: seq<Admission>, provider: string, model: string, version: int, i: nat)
    requires i < |rest| && !(Concerns(a, provider, model) && a.version == version)
    ensures FirstBound([a] + rest, provider, model, version, i + 1) <==> FirstBound(rest, provider, model, version, i)
  {
    var all := [a] + rest;
    assert forall k :: 0 <= k < |rest| ==> all[k + 1] == rest[k];
    assert forall k :: 0 < k < |all| ==> all[k] == rest[k - 1];
    hide Concerns;
  }

  lemma {:induction false} LastOfHistory(admissions: seq<Admission>, provider: string, model: string)
    ensures var history := History(admissions, provider, model);
            && (history == [] <==> forall i :: 0 <= i < |admissions| ==> !Concerns(admissions[i], provider, model))
            && (history != [] ==> exists i :: 0 <= i < |admissions| && history[|history| - 1] == admissions[i] && LastConcerned(admissions, provider, model, i))
  {
    if admissions != [] {
      var a, rest := admissions[0], admissions[1..];
      LastOfHistory(rest, provider, model);
      var tail := History(rest, provider, model);
      assert History(admissions, provider, model) == (if Concerns(a, provider, model) then [a] else []) + tail;
      hide History, Concerns;
      assert forall k :: 0 < k < |admissions| ==> admissions[k] == rest[k - 1];
      assert forall k :: 0 <= k < |rest| ==> admissions[k + 1] == rest[k];
      if tail != [] {
        var i :| 0 <= i < |rest| && tail[|tail| - 1] == rest[i] && LastConcerned(rest, provider, model, i);
        assert LastConcerned(admissions, provider, model, i + 1);
      } else if Concerns(a, provider, model) {
        assert LastConcerned(admissions, provider, model, 0);
      }
    }
  }

  /**
   `eligibility_fact` for every registry and query: each reason as an iff on the registry's contents;
   where an admission decides, the answer carries that admission's model and id.
   */
  lemma {:induction false} FactExactly(r: Registry, provider: string, model: string)
    ensures var fact := EligibilityFact(r, provider, model);
            var known := provider in r.providers && (model == "" || Model(provider, model) in r.models);
            && fact.provider == provider && fact.version == r.version
            && (fact.reason == UNKNOWN_PROVIDER <==> provider !in r.providers)
            && (fact.reason == UNKNOWN_MODEL <==> provider in r.providers && !known)
            && (fact.reason == NO_ADMISSION <==> known && forall a :: a in r.admissions ==> !Concerns(a, provider, model))
            && (fact.reason == STALE_ADMISSION <==>
                  && known && (exists a :: a in r.admissions && Concerns(a, provider, model))
                  && forall a :: a in r.admissions && Concerns(a, provider, model) ==> a.version != r.version)
            && (fact.reason == ADMISSION_DISABLED <==>
                  known && exists i :: 0 <= i < |r.admissions| && Decides(r, provider, model, i) && r.admissions[i].state == DISABLED)
            && (fact.reason == ADMITTED_REASON <==> fact.eligible)
            && (fact.eligible <==>
                  known && exists i :: 0 <= i < |r.admissions| && Decides(r, provider, model, i) && r.admissions[i].state == ADMITTED)
            && (known ==> forall i :: 0 <= i < |r.admissions| && Decides(r, provider, model, i) ==>
                            fact.model == r.admissions[i].model && fact.admission == r.admissions[i].id)
            && (fact.reason in {UNKNOWN_PROVIDER, UNKNOWN_MODEL, NO_ADMISSION} ==> fact.model == model && fact.admission == "")
            && (fact.reason == STALE_ADMISSION ==>
                  && fact.admission == ""
                  && exists i :: 0 <= i < |r.admissions| && LastConcerned(r.admissions, provider, model, i) && fact.model == r.admissions[i].model)
  {
    LastOfHistory(r.admissions, provider, model);
    FirstCurrent(r.admissions, provider, model, r.version);
    CurrentExactly(History(r.admissions, provider, model), r.version);
    HistoryExactly(r.admissions, provider, model);
    FirstIsUnique(r, provider, model);
    hide History, Current, FirstBound, LastConcerned;
    var current := Current(History(r.admissions, provider, model), r.version);
    assert forall a :: a in r.admissions <==> exists i :: 0 <= i < |r.admissions| && r.admissions[i] == a;
    if current != [] {
      assert current[0] in current;
      var i :| 0 <= i < |r.admissions| && current[0] == r.admissions[i] && Decides(r, provider, model, i);
    }
  }

  lemma FirstIsUnique(r: Registry, provider: string, model: string)
    ensures forall i, j :: 0 <= i < |r.admissions| && 0 <= j < |r.admissions| && Decides(r, provider, model, i) && Decides(r, provider, model, j) ==> i == j
  {}

  /** `lifecycle_eligibility`: the admission decides first, then the lifecycle fact of the admitted model against the current registry. */
  lemma {:induction false} QueryExactly(r: Registry, l: Option<Lifecycle>, provider: string, model: string, required: set<string>)
    requires l.Some? ==> ValidLifecycle(l.value)
    ensures var admission := EligibilityFact(r, provider, model);
            var (eligible, reason) := LifecycleEligibility(r, l, provider, model, required);
            && (eligible <==>
                  && admission.eligible
                  && (l.Some? ==> exists f :: && f in l.value.facts && f.provider == provider && f.model == admission.model && f.registryVersion == r.version
                                              && f.health == f.quota == f.rate == Good && required <= f.capabilities))
            && (!admission.eligible ==> reason == admission.reason)
            && (admission.eligible && l.Some? && (forall f :: f in l.value.facts ==> f.provider != provider || f.model != admission.model) ==> reason == UNKNOWN_HEALTH)
  {
    FactExactly(r, provider, model);
    hide EligibilityFact, FactFor, EvaluateLifecycle, Decides, Concerns;
    var admission := EligibilityFact(r, provider, model);
    if l.Some? {
      FactForExactly(l.value.facts, provider, admission.model);
      var found := FactFor(l.value.facts, provider, admission.model);
      if found.Some? {
        EvaluatesExactly(found.value, required, Some(r.version), None);
        assert found.value in l.value.facts;
        assert forall f :: f in l.value.facts && f.provider == provider && f.model == admission.model ==> f == found.value;
      }
    }
  }
}
