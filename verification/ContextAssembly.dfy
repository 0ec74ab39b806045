/** Context assembly: an order-sensitive fold over sources whose successful results do not depend on order. */
module ContextAssembly {
  import opened Common
  import opened Order

  datatype Tier = USER_DECISION | APPROVED_PLAN | VERIFIED_REPOSITORY | VERIFIED_STATE | TECHNICAL_ASSUMPTION

  function Rank(t: Tier): nat {
    match t
    case USER_DECISION => 0
    case APPROVED_PLAN => 1
    case VERIFIED_REPOSITORY => 2
    case VERIFIED_STATE => 3
    case TECHNICAL_ASSUMPTION => 4
  }

  datatype Source = Source(key: string, tier: Tier, ref: string, digest: string)

  /** An approved requirement envelope: its id and digest. */
  datatype Requirement = Requirement(id: string, digest: string)

  datatype Context = Context(requirementDigests: seq<string>, items: seq<Source>)

  datatype Error = NoRequirement | ConflictingSources | NoSource | DuplicateRequirement

  /** The `by_key` dictionary after one more source; None on a same-precedence conflict. */
  function Bind(byKey: map<string, Source>, item: Source): Option<map<string, Source>> {
    if item.key !in byKey then Some(byKey[item.key := item])
    else
      var current := byKey[item.key];
      if Rank(current.tier) == Rank(item.tier) && current.digest != item.digest then None
      else if Rank(item.tier) < Rank(current.tier) then Some(byKey[item.key := item])
      else Some(byKey)
  }

  function BindAll(sources: seq<Source>): Option<map<string, Source>> {
    if sources == [] then Some(map[])
    else
      match BindAll(sources[..|sources| - 1])
      case None => None
      case Some(byKey) => Bind(byKey, sources[|sources| - 1])
  }

  /** The sort key of the selected items. */
  predicate Before(a: Source, b: Source) {
    if Rank(a.tier) != Rank(b.tier) then Rank(a.tier) < Rank(b.tier)
    else if a.key != b.key then Leq(a.key, b.key)
    else if a.ref != b.ref then Leq(a.ref, b.ref)
    else Leq(a.digest, b.digest)
  }

  /** The chosen sources in key order of first appearance, before sorting. */
  function Chosen(byKey: map<string, Source>, sources: seq<Source>): seq<Source>
    requires forall s :: s in sources ==> s.key in byKey
  {
    if sources == [] then []
    else
      var init, key := sources[..|sources| - 1], sources[|sources| - 1].key;
      var earlier := Chosen(byKey, init);
      if Mentions(init, key) then earlier else earlier + [byKey[key]]
  }

  predicate Mentions(sources: seq<Source>, key: string) {
    exists i :: 0 <= i < |sources| && sources[i].key == key
  }

  /** The sort key of the requirements. */
  predicate RequirementBefore(a: Requirement, b: Requirement) {
    if a.id != b.id then Leq(a.id, b.id) else Leq(a.digest, b.digest)
  }

  function DigestOf(q: Requirement): string { q.digest }

  function Digests(requirements: seq<Requirement>): seq<string> {
    seq(|requirements|, i requires 0 <= i < |requirements| => requirements[i].digest)
  }

  /** `assemble_context` on validated sources; the last error is raised by the constructor of the result. */
  function Assemble(requirements: seq<Requirement>, sources: seq<Source>): Result<Context, Error> {
    if requirements == [] then Err(NoRequirement)
    else
      match BindAll(sources)
      case None => Err(ConflictingSources)
      case Some(byKey) =>
        if sources == [] then Err(NoSource)
        else
          var digests := Digests(Sorted(requirements, RequirementBefore));
          if HasDuplicate(digests) then Err(DuplicateRequirement)
          else
            BoundKeys(sources);
            Ok(Context(digests, Sorted(Chosen(byKey, sources), Before)))
  }

  /** The fold as the source loops. */
  method BindSources(sources: seq<Source>) returns (r: Option<map<string, Source>>)
    ensures r == BindAll(sources)
  {
    hide Bind;
    var byKey: map<string, Source> := map[];
    var i := 0;
    while i < |sources|
      invariant 0 <= i <= |sources|
      invariant BindAll(sources[..i]) == Some(byKey)
    {
      var next := Bind(byKey, sources[i]);
      assert sources[..i + 1][..i] == sources[..i];
      if next.None? {
        ConflictPersists(sources, i + 1);
        return None;
      }
      byKey, i := next.value, i + 1;
    }
    assert sources[..i] == sources;
    return Some(byKey);
  }

  lemma {:induction false} ConflictPersists(sources: seq<Source>, n: nat)
    requires n <= |sources| && BindAll(sources[..n]).None?
    ensures BindAll(sources).None?
    decreases |sources| - n
  {
    hide Bind;
    if n == |sources| {
      assert sources[..n] == sources;
    } else {
      assert sources[..n + 1][..n] == sources[..n];
      ConflictPersists(sources, n + 1);
    }
  }

  /** A chosen source is one of the given ones, has the least rank for its key, and every source of that rank agrees with it. */
  ghost predicate Winner(chosen: Source, sources: seq<Source>) {
    && chosen in sources
    && forall s :: s in sources && s.key == chosen.key ==>
         Rank(chosen.tier) <= Rank(s.tier) && (Rank(s.tier) == Rank(chosen.tier) ==> s.digest == chosen.digest && s.tier == chosen.tier)
  }

  lemma RankInjective(a: Tier, b: Tier)
    ensures Rank(a) == Rank(b) <==> a == b
  {}

  /** A dictionary that holds exactly the keys of the sources, each with a winning source. */
  ghost predicate HoldsWinners(byKey: map<string, Source>, sources: seq<Source>) {
    && (forall s :: s in sources ==> s.key in byKey)
    && (forall k :: k in byKey ==> byKey[k].key == k && Winner(byKey[k], sources))
  }

  lemma {:induction false} BindKeepsWinners(byKey: map<string, Source>, init: seq<Source>, item: Source)
    requires HoldsWinners(byKey, init) && Bind(byKey, item).Some?
    ensures HoldsWinners(Bind(byKey, item).value, init + [item])
  {
    var after := Bind(byKey, item).value;
    forall k | k in after
      ensures after[k].key == k && Winner(after[k], init + [item])
    {
      if k == item.key && k in byKey { RankInjective(byKey[k].tier, item.tier); }
    }
  }

  /** A successful fold holds exactly the keys of the sources, each with a winning source. */
  lemma {:induction false} BoundKeys(sources: seq<Source>)
    ensures BindAll(sources).Some? ==> HoldsWinners(BindAll(sources).value, sources)
  {
    hide Bind, Winner;
    if sources != [] && BindAll(sources).Some? {
      var init, item := sources[..|sources| - 1], sources[|sources| - 1];
      BoundKeys(init);
      assert sources == init + [item];
      BindKeepsWinners(BindAll(init).value, init, item);
    }
  }

  // ---- The selected list ----

  lemma MentionsOwn(sources: seq<Source>, s: Source)
    requires s in sources
    ensures Mentions(sources, s.key)
  {}

  lemma {:induction false} MentionsAppend(init: seq<Source>, last: Source)
    ensures forall key :: Mentions(init + [last], key) <==> Mentions(init, key) || key == last.key
  {
    forall key | Mentions(init, key) || key == last.key
      ensures Mentions(init + [last], key)
    {
      if key == last.key {
        assert (init + [last])[|init|].key == key;
      } else {
        var i :| 0 <= i < |init| && init[i].key == key;
        assert (init + [last])[i].key == key;
      }
    }
  }

  lemma {:induction false} ChosenExactly(byKey: map<string, Source>, sources: seq<Source>)
    requires forall s :: s in sources ==> s.key in byKey
    requires forall k :: k in byKey ==> byKey[k].key == k
    ensures forall x :: x in Chosen(byKey, sources) <==> x.key in byKey && byKey[x.key] == x && Mentions(sources, x.key)
    ensures DistinctKeys(Chosen(byKey, sources))
  {
    if sources != [] {
      var init, last := sources[..|sources| - 1], sources[|sources| - 1];
      ChosenExactly(byKey, init);
      assert sources == init + [last];
      var earlier := Chosen(byKey, init);
      MentionsAppend(init, last);
      hide Mentions;
      if !Mentions(init, last.key) {
        forall i | 0 <= i < |earlier|
          ensures earlier[i].key != last.key
        {
          assert earlier[i] in earlier;
        }
      }
    }
  }

  /** What the result says about one key, leaving aside which equal source was kept. */
  datatype Fact = Fact(key: string, tier: Tier, digest: string)

  function FactOf(s: Source): Fact { Fact(s.key, s.tier, s.digest) }

  function Facts(items: seq<Source>): seq<Fact> {
    seq(|items|, i requires 0 <= i < |items| => FactOf(items[i]))
  }

  predicate FactBefore(a: Fact, b: Fact) {
    if Rank(a.tier) != Rank(b.tier) then Rank(a.tier) < Rank(b.tier) else Leq(a.key, b.key)
  }

  lemma {:induction false} BeforeIsTotalOrder()
    ensures TotalOrder(Before)
  {
    forall x: Source, y: Source
      ensures Before(x, y) || Before(y, x)
    {
      LeqTotal(x.key, y.key);
      LeqTotal(x.ref, y.ref);
      LeqTotal(x.digest, y.digest);
    }
    forall x: Source, y: Source, z: Source | Before(x, y) && Before(y, z)
      ensures Before(x, z)
    {
      BeforeTransitive(x, y, z);
    }
  }

  lemma {:induction false} BeforeTransitive(x: Source, y: Source, z: Source)
    requires Before(x, y) && Before(y, z)
    ensures Before(x, z)
  {
    if Rank(x.tier) == Rank(y.tier) == Rank(z.tier) {
      if x.key != y.key && y.key != z.key {
        LeqTransitive(x.key, y.key, z.key);
        if x.key == z.key { LeqAntisymmetric(x.key, y.key); }
      } else if x.key == y.key == z.key {
        if x.ref != y.ref && y.ref != z.ref {
          LeqTransitive(x.ref, y.ref, z.ref);
          if x.ref == z.ref { LeqAntisymmetric(x.ref, y.ref); }
        } else if x.ref == y.ref == z.ref {
          LeqTransitive(x.digest, y.digest, z.digest);
        }
      }
    }
  }

  function KeyOf(s: Source): string { s.key }

  ghost predicate DistinctKeys(items: seq<Source>) {
    DistinctBy(items, KeyOf)
  }

  /** The result of a successful assembly, without reference to how it was computed. */
  ghost predicate IsSelection(items: seq<Source>, sources: seq<Source>) {
    && (forall x :: x in items ==> Winner(x, sources))
    && (forall s :: s in sources ==> Mentions(items, s.key))
    && DistinctKeys(items)
    && SortedBy(items, Before)
  }

  /** Success selects, for every key, a source of minimum rank with which every source of that rank agrees, sorted. */
  lemma {:induction false} AssembleSelects(requirements: seq<Requirement>, sources: seq<Source>)
    requires Assemble(requirements, sources).Ok?
    ensures IsSelection(Assemble(requirements, sources).value.items, sources)
  {
    hide Before, Winner, Sorted, Chosen, Mentions, HasDuplicate, Digests;
    BoundKeys(sources);
    var byKey := BindAll(sources).value;
    var chosen := Chosen(byKey, sources);
    var items := Sorted(chosen, Before);
    ChosenExactly(byKey, sources);
    SortedPermutes(chosen, Before);
    BeforeIsTotalOrder();
    SortedSorts(chosen, Before);
    SameMembers(items, chosen);
    DistinctByPermutes(chosen, items, KeyOf);
    forall s | s in sources
      ensures Mentions(items, s.key)
    {
      MentionsOwn(sources, s);
      assert byKey[s.key] in chosen && byKey[s.key] in items;
      MentionsOwn(items, byKey[s.key]);
    }
  }

  /** Two selections from the same sources in different orders say the same facts in the same order. */
  lemma {:induction false} SelectionFactsUnique(items: seq<Source>, sources: seq<Source>, items': seq<Source>, sources': seq<Source>)
    requires IsSelection(items, sources) && IsSelection(items', sources')
    requires multiset(sources) == multiset(sources')
    ensures Facts(items) == Facts(items')
  {
    hide Winner, Facts, FactBefore, Mentions;
    FactsSorted(items);
    FactsSorted(items');
    SameFacts(items, sources, items', sources');
    FactsAntisymmetric(items);
    SortedIsUnique(Facts(items), Facts(items'), FactBefore);
  }

  lemma {:induction false} SameFacts(items: seq<Source>, sources: seq<Source>, items': seq<Source>, sources': seq<Source>)
    requires IsSelection(items, sources) && IsSelection(items', sources')
    requires multiset(sources) == multiset(sources')
    ensures multiset(Facts(items)) == multiset(Facts(items'))
  {
    hide Winner, Facts, SortedBy, Mentions;
    SameMembers(sources, sources');
    forall p: Fact
      ensures multiset(Facts(items))[p] == multiset(Facts(items'))[p]
    {
      FactCount(items, p);
      FactCount(items', p);
      if p in Facts(items) { SameFact(items, sources, items', sources', p); }
      if p in Facts(items') { SameFact(items', sources', items, sources, p); }
    }
  }

  lemma {:induction false} FactsAntisymmetric(items: seq<Source>)
    requires DistinctKeys(items)
    ensures forall x, y :: x in Facts(items) && y in Facts(items) && FactBefore(x, y) && FactBefore(y, x) ==> x == y
  {
    var f := Facts(items);
    forall x, y | x in f && y in f && FactBefore(x, y) && FactBefore(y, x)
      ensures x == y
    {
      LeqAntisymmetric(x.key, y.key);
      var i :| 0 <= i < |f| && f[i] == x;
      var j :| 0 <= j < |f| && f[j] == y;
      assert items[i].key == items[j].key;
    }
  }

  lemma {:induction false} FactsSorted(items: seq<Source>)
    requires SortedBy(items, Before) && DistinctKeys(items)
    ensures SortedBy(Facts(items), FactBefore)
  {
    forall i, j | 0 <= i < j < |items|
      ensures FactBefore(FactOf(items[i]), FactOf(items[j]))
    {
      assert Before(items[i], items[j]);
    }
  }

  lemma {:induction false} SameFact(items: seq<Source>, sources: seq<Source>, items': seq<Source>, sources': seq<Source>, p: Fact)
    requires IsSelection(items, sources) && IsSelection(items', sources')
    requires forall s :: s in sources <==> s in sources'
    requires p in Facts(items)
    ensures p in Facts(items')
  {
    var i :| 0 <= i < |items| && Facts(items)[i] == p;
    var x := items[i];
    assert x in items && Winner(x, sources);
    assert Mentions(items', x.key);
    var j :| 0 <= j < |items'| && items'[j].key == x.key;
    var y := items'[j];
    assert y in items' && Winner(y, sources');
    RankInjective(x.tier, y.tier);
    assert Facts(items')[j] == p;
  }

  /** With distinct keys each fact occurs at most once. */
  lemma {:induction false} FactCount(items: seq<Source>, p: Fact)
    requires DistinctKeys(items)
    ensures multiset(Facts(items))[p] == if p in Facts(items) then 1 else 0
  {
    var f := Facts(items);
    if p in f {
      var i :| 0 <= i < |f| && f[i] == p;
      assert f == f[..i] + [f[i]] + f[i + 1..];
      assert forall k :: 0 <= k < |f| && k != i ==> f[k].key != p.key;
      assert p !in f[..i] && p !in f[i + 1..];
    }
  }

  lemma {:induction false} RequirementBeforeIsTotalOrder()
    ensures TotalOrder(RequirementBefore)
  {
    forall x: Requirement, y: Requirement
      ensures RequirementBefore(x, y) || RequirementBefore(y, x)
    {
      LeqTotal(x.id, y.id);
      LeqTotal(x.digest, y.digest);
    }
    forall x: Requirement, y: Requirement, z: Requirement | RequirementBefore(x, y) && RequirementBefore(y, z)
      ensures RequirementBefore(x, z)
    {
      if x.id != y.id && y.id != z.id {
        LeqTransitive(x.id, y.id, z.id);
        if x.id == z.id { LeqAntisymmetric(x.id, y.id); }
      } else if x.id == y.id == z.id {
        LeqTransitive(x.digest, y.digest, z.digest);
      }
    }
  }

  /** The requirements are listed in one order, whatever order they came in. */
  lemma {:induction false} RequirementOrderDoesNotMatter(a: seq<Requirement>, b: seq<Requirement>)
    requires multiset(a) == multiset(b)
    ensures Sorted(a, RequirementBefore) == Sorted(b, RequirementBefore)
  {
    RequirementBeforeIsTotalOrder();
    hide Sorted;
    SortedSorts(a, RequirementBefore);
    SortedSorts(b, RequirementBefore);
    SortedPermutes(a, RequirementBefore);
    SortedPermutes(b, RequirementBefore);
    forall x, y | RequirementBefore(x, y) && RequirementBefore(y, x)
      ensures x == y
    {
      if x.id != y.id { LeqAntisymmetric(x.id, y.id); } else { LeqAntisymmetric(x.digest, y.digest); }
    }
    SortedIsUnique(Sorted(a, RequirementBefore), Sorted(b, RequirementBefore), RequirementBefore);
  }

  /**
   Any two orders of the same requirements and sources that both assemble give the same requirement
   digests and the same sequence of key, tier and digest.
   */
  lemma {:induction false} OrderDoesNotMatter(requirements: seq<Requirement>, sources: seq<Source>, requirements': seq<Requirement>, sources': seq<Source>)
    requires multiset(requirements) == multiset(requirements') && multiset(sources) == multiset(sources')
    requires Assemble(requirements, sources).Ok? && Assemble(requirements', sources').Ok?
    ensures Assemble(requirements, sources).value.requirementDigests == Assemble(requirements', sources').value.requirementDigests
    ensures Facts(Assemble(requirements, sources).value.items) == Facts(Assemble(requirements', sources').value.items)
  {
    RequirementOrderDoesNotMatter(requirements, requirements');
    assert Assemble(requirements, sources).value.requirementDigests == Assemble(requirements', sources').value.requirementDigests;
    hide Assemble, IsSelection, Facts;
    AssembleSelects(requirements, sources);
    AssembleSelects(requirements', sources');
    SelectionFactsUnique(Assemble(requirements, sources).value.items, sources, Assemble(requirements', sources').value.items, sources');
  }

  // ---- Exactly when an order succeeds ----

  /** An earlier source of the same key ranks before source `i`, so that `i` cannot matter any more. */
  ghost predicate Outranked(sources: seq<Source>, i: nat)
    requires i < |sources|
  {
    exists k :: 0 <= k < i && sources[k].key == sources[i].key && Rank(sources[k].tier) < Rank(sources[i].tier)
  }

  /** Source `i` agrees with every earlier source of its key and tier. */
  ghost predicate AgreesBefore(sources: seq<Source>, i: nat)
    requires i < |sources|
  {
    forall k :: 0 <= k < i && sources[k].key == sources[i].key && sources[k].tier == sources[i].tier ==> sources[k].digest == sources[i].digest
  }

  ghost predicate Unblocked(sources: seq<Source>) {
    forall i :: 0 <= i < |sources| ==> Outranked(sources, i) || AgreesBefore(sources, i)
  }

  lemma {:induction false} UnblockedInit(sources: seq<Source>)
    requires sources != []
    ensures var init := sources[..|sources| - 1];
            Unblocked(sources) <==> Unblocked(init) && (Outranked(sources, |sources| - 1) || AgreesBefore(sources, |sources| - 1))
  {
    var init := sources[..|sources| - 1];
    forall i | 0 <= i < |init|
      ensures Outranked(init, i) <==> Outranked(sources, i)
      ensures AgreesBefore(init, i) <==> AgreesBefore(sources, i)
    {
      assert forall k :: 0 <= k < i ==> init[k] == sources[k];
      if Outranked(sources, i) {
        var k :| 0 <= k < i && sources[k].key == sources[i].key && Rank(sources[k].tier) < Rank(sources[i].tier);
        assert init[k] == sources[k];
      }
    }
  }

  /** Whether the last source is outranked, and whether it agrees, can be read off the winner so far. */
  lemma {:induction false} WinnerDecides(init: seq<Source>, item: Source, winner: Source)
    requires Winner(winner, init) && winner.key == item.key
    ensures Outranked(init + [item], |init|) <==> Rank(winner.tier) < Rank(item.tier)
    ensures Rank(item.tier) <= Rank(winner.tier) ==>
              (AgreesBefore(init + [item], |init|) <==> !(Rank(winner.tier) == Rank(item.tier) && winner.digest != item.digest))
  {
    var sources := init + [item];
    var j :| 0 <= j < |init| && init[j] == winner;
    assert sources[j] == winner;
    RankInjective(winner.tier, item.tier);
    forall k | 0 <= k < |init| && sources[k].key == item.key
      ensures Rank(winner.tier) <= Rank(sources[k].tier) && (sources[k].tier == winner.tier ==> sources[k].digest == winner.digest)
    {
      assert sources[k] in init;
    }
  }

  /** The last source is bound exactly when it is outranked or agrees with the earlier ones of its key and tier. */
  lemma {:induction false} LastBindsExactly(sources: seq<Source>)
    requires sources != [] && BindAll(sources[..|sources| - 1]).Some?
    ensures BindAll(sources).Some? <==> Outranked(sources, |sources| - 1) || AgreesBefore(sources, |sources| - 1)
  {
    var n := |sources| - 1;
    var init, item := sources[..n], sources[n];
    BoundKeys(init);
    var byKey := BindAll(init).value;
    assert sources == init + [item];
    if item.key in byKey {
      hide Winner, Outranked, AgreesBefore;
      WinnerDecides(init, item, byKey[item.key]);
    } else {
      assert forall k :: 0 <= k < n ==> sources[k] in init && sources[k].key != item.key;
    }
  }

  /**
   An order of sources assembles if and only if each source agrees with the earlier sources of its
   key and tier, or an earlier source of its key outranks it.
   */
  lemma {:induction false} SucceedsExactly(sources: seq<Source>)
    ensures BindAll(sources).Some? <==> Unblocked(sources)
  {
    if sources != [] {
      hide Bind, Unblocked, Outranked, AgreesBefore;
      SucceedsExactly(sources[..|sources| - 1]);
      UnblockedInit(sources);
      if BindAll(sources[..|sources| - 1]).Some? { LastBindsExactly(sources); }
    } else {
      assert Unblocked(sources);
    }
  }

  /** The constructor's duplicate test, in terms of the requirements as given. */
  lemma {:induction false} DuplicatesExactly(requirements: seq<Requirement>)
    ensures HasDuplicate(Digests(Sorted(requirements, RequirementBefore))) <==> !DistinctBy(requirements, DigestOf)
  {
    hide Sorted;
    var sorted := Sorted(requirements, RequirementBefore);
    SortedPermutes(requirements, RequirementBefore);
    HasDuplicateExactly(Digests(sorted));
    assert forall i :: 0 <= i < |sorted| ==> Digests(sorted)[i] == DigestOf(sorted[i]);
    if DistinctBy(requirements, DigestOf) { DistinctByPermutes(requirements, sorted, DigestOf); }
    if DistinctBy(sorted, DigestOf) { DistinctByPermutes(sorted, requirements, DigestOf); }
  }

  /**
   For every list of requirements and sources: when assembly succeeds, and when it raises which
   error. The same approved requirement given twice is refused, but only behind the other checks.
   */
  lemma {:induction false} AssemblesExactly(requirements: seq<Requirement>, sources: seq<Source>)
    ensures Assemble(requirements, sources).Ok? <==>
            requirements != [] && DistinctBy(requirements, DigestOf) && sources != [] && Unblocked(sources)
    ensures Assemble(requirements, sources) == Err(DuplicateRequirement) <==>
            requirements != [] && !DistinctBy(requirements, DigestOf) && sources != [] && Unblocked(sources)
    ensures Assemble(requirements, sources) == Err(ConflictingSources) <==> requirements != [] && !Unblocked(sources)
    ensures Assemble(requirements, sources) == Err(NoSource) <==> requirements != [] && sources == []
    ensures Assemble(requirements, sources) == Err(NoRequirement) <==> requirements == []
  {
    hide Sorted, Chosen, HasDuplicate, Digests, DistinctBy;
    SucceedsExactly(sources);
    DuplicatesExactly(requirements);
    NothingConflicts();
    hide BindAll, Unblocked;
  }

  lemma NothingConflicts()
    ensures BindAll([]) == Some(map[]) && Unblocked([])
  {}

  /** Two sources of one key and tier that differ in digest. */
  predicate Conflict(a: Source, b: Source) {
    a.key == b.key && a.tier == b.tier && a.digest != b.digest
  }

  lemma {:induction false} ConflictFirst(sources: seq<Source>, i: nat, j: nat) returns (order: seq<Source>)
    requires i < j < |sources| && Conflict(sources[i], sources[j])
    ensures multiset(order) == multiset(sources) && BindAll(order).None?
  {
    var rest := sources[..i] + sources[i + 1..j] + sources[j + 1..];
    order := [sources[i], sources[j]] + rest;
    assert sources == sources[..i] + [sources[i]] + sources[i + 1..j] + [sources[j]] + sources[j + 1..];
    SucceedsExactly(order);
    assert order[0] == sources[i] && order[1] == sources[j];
    assert !Outranked(order, 1) && !AgreesBefore(order, 1);
  }

  /** Every order of the sources assembles if and only if no two of them conflict. */
  lemma {:induction false} EveryOrderSucceedsExactly(sources: seq<Source>)
    ensures (forall order :: multiset(order) == multiset(sources) ==> BindAll(order).Some?) <==>
            forall a, b :: a in sources && b in sources ==> !Conflict(a, b)
  {
    hide BindAll;
    if forall a, b :: a in sources && b in sources ==> !Conflict(a, b) {
      forall order | multiset(order) == multiset(sources)
        ensures BindAll(order).Some?
      {
        SameMembers(order, sources);
        forall i | 0 <= i < |order|
          ensures AgreesBefore(order, i)
        {
          assert forall k :: 0 <= k < i ==> !Conflict(order[k], order[i]);
        }
        SucceedsExactly(order);
      }
    } else {
      var a, b :| a in sources && b in sources && Conflict(a, b);
      var i :| 0 <= i < |sources| && sources[i] == a;
      var j :| 0 <= j < |sources| && sources[j] == b;
      var order := ConflictFirst(sources, if i < j then i else j, if i < j then j else i);
    }
  }

  predicate RanksBefore(a: Source, b: Source) {
    Rank(a.tier) <= Rank(b.tier)
  }

  /** No source ranks before `s` for its key. */
  ghost predicate Leads(s: Source, sources: seq<Source>) {
    forall t :: t in sources && t.key == s.key ==> Rank(s.tier) <= Rank(t.tier)
  }

  /** In an order by rank only conflicts between leading sources matter. */
  lemma {:induction false} RankedIsUnblocked(order: seq<Source>)
    requires SortedBy(order, RanksBefore)
    requires forall a, b :: a in order && b in order && Leads(a, order) && Leads(b, order) ==> !Conflict(a, b)
    ensures Unblocked(order)
  {
    forall i | 0 <= i < |order|
      ensures Outranked(order, i) || AgreesBefore(order, i)
    {
      if !Outranked(order, i) {
        forall t | t in order && t.key == order[i].key
          ensures Rank(order[i].tier) <= Rank(t.tier)
        {
          var k :| 0 <= k < |order| && order[k] == t;
          if i < k { assert RanksBefore(order[i], order[k]); }
        }
        assert Leads(order[i], order);
        assert forall k :: 0 <= k < i && order[k].key == order[i].key && order[k].tier == order[i].tier ==> order[k] in order && Leads(order[k], order);
      }
    }
  }

  /** Some order of the sources assembles if and only if the leading sources of every key agree: the order by rank does. */
  lemma {:induction false} SomeOrderSucceedsExactly(sources: seq<Source>)
    ensures (exists order :: multiset(order) == multiset(sources) && BindAll(order).Some?) <==>
            forall a, b :: a in sources && b in sources && Leads(a, sources) && Leads(b, sources) ==> !Conflict(a, b)
    ensures (exists order :: multiset(order) == multiset(sources) && BindAll(order).Some?) <==> BindAll(Sorted(sources, RanksBefore)).Some?
  {
    hide BindAll, Sorted, Unblocked;
    var ranked := Sorted(sources, RanksBefore);
    SortedPermutes(sources, RanksBefore);
    SortedSorts(sources, RanksBefore);
    SameMembers(ranked, sources);
    if forall a, b :: a in sources && b in sources && Leads(a, sources) && Leads(b, sources) ==> !Conflict(a, b) {
      forall a | a in sources
        ensures Leads(a, ranked) <==> Leads(a, sources)
      {}
      RankedIsUnblocked(ranked);
      SucceedsExactly(ranked);
    }
    forall order | multiset(order) == multiset(sources) && BindAll(order).Some?
      ensures forall a, b :: a in sources && b in sources && Leads(a, sources) && Leads(b, sources) ==> !Conflict(a, b)
    {
      BoundKeys(order);
      SameMembers(order, sources);
      LeadersAgree(order, sources);
    }
  }

  lemma {:induction false} LeadersAgree(order: seq<Source>, sources: seq<Source>)
    requires BindAll(order).Some? && forall s :: s in order <==> s in sources
    ensures forall a, b :: a in sources && b in sources && Leads(a, sources) && Leads(b, sources) ==> !Conflict(a, b)
  {
    hide BindAll;
    BoundKeys(order);
    var byKey := BindAll(order).value;
    forall a, b | a in sources && b in sources && Leads(a, sources) && Leads(b, sources) && a.key == b.key && a.tier == b.tier
      ensures a.digest == b.digest
    {
      assert Winner(byKey[a.key], order);
    }
  }

  /** Whether assembly succeeds at all does depend on order: a conflict is only seen while its rank is in the lead. */
  lemma {:induction false} SuccessDependsOnOrder(q: Requirement, top: Source, a: Source, b: Source)
    requires top.key == a.key == b.key && Rank(top.tier) < Rank(a.tier) && a.tier == b.tier && a.digest != b.digest
    ensures Assemble([q], [top, a, b]).Ok? && Assemble([q], [a, b, top]) == Err(ConflictingSources)
  {
    hide Assemble;
    var good, bad := [top, a, b], [a, b, top];
    AssemblesExactly([q], good);
    AssemblesExactly([q], bad);
    assert good[0] == top && Outranked(good, 1) && Outranked(good, 2) && AgreesBefore(good, 0);
    assert bad[0] == a && bad[1] == b && !Outranked(bad, 1) && !AgreesBefore(bad, 1);
  }

  // ---- The selection in terms of the tiers ----

  /** User decisions outrank the approved plan, that the repository, that the recorded state, and all of them an assumption. */
  predicate Outranks(a: Tier, b: Tier) {
    match b
    case USER_DECISION => false
    case APPROVED_PLAN => a.USER_DECISION?
    case VERIFIED_REPOSITORY => a.USER_DECISION? || a.APPROVED_PLAN?
    case VERIFIED_STATE => a.USER_DECISION? || a.APPROVED_PLAN? || a.VERIFIED_REPOSITORY?
    case TECHNICAL_ASSUMPTION => !a.TECHNICAL_ASSUMPTION?
  }

  lemma OutranksExactly(a: Tier, b: Tier)
    ensures Rank(a) < Rank(b) <==> Outranks(a, b)
    ensures Rank(a) == Rank(b) <==> a == b
  {}

  /** Source `i` is the first of its key in the best tier that is given for it. */
  ghost predicate FirstOfBest(sources: seq<Source>, i: nat)
    requires i < |sources|
  {
    && (forall k :: 0 <= k < |sources| && sources[k].key == sources[i].key ==> !Outranks(sources[k].tier, sources[i].tier))
    && (forall k :: 0 <= k < i && sources[k].key == sources[i].key ==> sources[k].tier != sources[i].tier)
  }

  ghost predicate Best(chosen: Source, sources: seq<Source>) {
    exists i :: 0 <= i < |sources| && sources[i] == chosen && FirstOfBest(sources, i)
  }

  /** One more source: the first of the best stays so unless the new one outranks it, and then the new one is. */
  lemma {:induction false} BestStep(init: seq<Source>, item: Source, current: Source)
    requires Best(current, init)
    ensures current.key != item.key || !Outranks(item.tier, current.tier) ==> Best(current, init + [item])
    ensures current.key == item.key && Outranks(item.tier, current.tier) ==> Best(item, init + [item])
  {
    var all := init + [item];
    var i :| 0 <= i < |init| && init[i] == current && FirstOfBest(init, i);
    assert forall k :: 0 <= k < |init| ==> all[k] == init[k];
    if current.key != item.key || !Outranks(item.tier, current.tier) {
      assert FirstOfBest(all, i);
    } else {
      assert all[|init|] == item && FirstOfBest(all, |init|);
    }
  }

  lemma {:induction false} BoundAreBest(sources: seq<Source>)
    requires BindAll(sources).Some?
    ensures forall key :: key in BindAll(sources).value ==> Best(BindAll(sources).value[key], sources)
  {
    hide Best, Bind, Winner;
    if sources != [] {
      var init, item := sources[..|sources| - 1], sources[|sources| - 1];
      BoundAreBest(init);
      BoundKeys(init);
      assert sources == init + [item];
      forall key | key in BindAll(sources).value
        ensures Best(BindAll(sources).value[key], sources)
      {
        BindOneBest(init, BindAll(init).value, item, key);
      }
    }
  }

  /** One round of the fold keeps the best sources bound. */
  lemma {:induction false} BindOneBest(init: seq<Source>, byKey: map<string, Source>, item: Source, key: string)
    requires HoldsWinners(byKey, init) && Bind(byKey, item).Some? && key in Bind(byKey, item).value
    requires forall k :: k in byKey ==> Best(byKey[k], init)
    ensures Best(Bind(byKey, item).value[key], init + [item])
  {
    hide Best, Winner;
    if key in byKey {
      OutranksExactly(item.tier, byKey[key].tier);
      hide Rank, Outranks;
      BestStep(init, item, byKey[key]);
    } else {
      OnlyIsBest(init, item);
    }
  }

  lemma {:induction false} OnlyIsBest(init: seq<Source>, item: Source)
    requires forall s :: s in init ==> s.key != item.key
    ensures Best(item, init + [item])
  {
    var all := init + [item];
    assert all[|init|] == item;
    assert forall k :: 0 <= k < |init| ==> all[k] == init[k] && init[k] in init;
    assert FirstOfBest(all, |init|);
  }

  lemma {:induction false} BestIsUnique(a: Source, b: Source, sources: seq<Source>)
    requires Best(a, sources) && Best(b, sources) && a.key == b.key
    ensures a == b
  {
    var i :| 0 <= i < |sources| && sources[i] == a && FirstOfBest(sources, i);
    var j :| 0 <= j < |sources| && sources[j] == b && FirstOfBest(sources, j);
    assert a.tier == b.tier || Outranks(a.tier, b.tier) || Outranks(b.tier, a.tier);
  }

  /**
   The assembled items are exactly the first source of the best tier for each key, and they are listed
   from the best tier to the worst, by key within a tier.
   */
  lemma {:induction false} SelectsBestOfEachKey(requirements: seq<Requirement>, sources: seq<Source>)
    requires Assemble(requirements, sources).Ok?
    ensures var items := Assemble(requirements, sources).value.items;
            && (forall x :: x in items <==> Best(x, sources))
            && (forall i, j :: 0 <= i < j < |items| ==>
                  if items[i].tier == items[j].tier then Less(items[i].key, items[j].key) else Outranks(items[i].tier, items[j].tier))
  {
    hide Best, BindAll, Sorted, Chosen, Leq, Digests, HasDuplicate, Mentions;
    var items, byKey := Assemble(requirements, sources).value.items, BindAll(sources).value;
    BoundKeys(sources);
    BoundAreBest(sources);
    ChosenExactly(byKey, sources);
    SortedPermutes(Chosen(byKey, sources), Before);
    SameMembers(items, Chosen(byKey, sources));
    forall x
      ensures x in items <==> Best(x, sources)
    {
      if Best(x, sources) {
        BestIsGiven(x, sources);
        MentionsOwn(sources, x);
        BestIsUnique(x, byKey[x.key], sources);
      }
    }
    AssembleSelects(requirements, sources);
    forall i, j | 0 <= i < j < |items|
      ensures if items[i].tier == items[j].tier then Less(items[i].key, items[j].key) else Outranks(items[i].tier, items[j].tier)
    {
      OutranksExactly(items[i].tier, items[j].tier);
    }
  }

  lemma BestIsGiven(x: Source, sources: seq<Source>)
    requires Best(x, sources)
    ensures x in sources
  {}
}
