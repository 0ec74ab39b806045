/** What acquiring, releasing and moving do to a record exactly, and how long an acquired dependency is held. */
module CapabilityDependencies {
  import opened Common
  import opened Order
  import opened Text
  import opened CapabilityLifecycle

  /** The ASCII codes of digits, upper-case and lower-case letters. */
  predicate LetterOrDigitCode(n: int) {
    48 <= n <= 57 || 65 <= n <= 90 || 97 <= n <= 122
  }

  lemma {:induction false} SafeTailExactly(s: string)
    ensures SafeTail(s) <==>
            && (forall i :: 0 <= i < |s| ==> AlphaNumeric(s[i]) || s[i] in "._:/+-")
            && (forall i :: 0 < i < |s| ==> s[i - 1] != '.' || s[i] != '.')
  {
    if s != "" {
      SafeTailExactly(s[1..]);
      assert forall i :: 1 <= i < |s| ==> s[i] == s[1..][i - 1];
      if forall i :: 0 < i < |s| ==> s[i - 1] != '.' || s[i] != '.' {
        assert forall i :: 0 < i < |s[1..]| ==> s[i] != '.' || s[i + 1] != '.';
      }
    }
  }

  /** `_safe` accepts stripped texts of 1 to 256 identifier characters that start with a letter or digit and hold no "..". */
  lemma {:induction false} SafeTextExactly(value: string)
    ensures SafeText(value) == Some(Strip(value)) || SafeText(value) == None
    ensures SafeText(value).Some? <==>
            var text := Strip(value);
            && 1 <= |text| <= 256 && LetterOrDigitCode(text[0] as int)
            && (forall i :: 0 <= i < |text| ==> LetterOrDigitCode(text[i] as int) || text[i] in "._:/+-")
            && (forall i :: 0 < i < |text| ==> text[i - 1] != '.' || text[i] != '.')
  {
    hide Strip;
    SafeTailExactly(Strip(value));
  }

  /** Identifiers that can be stored together: each is legal, and no two different ones read alike once stripped. */
  ghost predicate Readable(ids: set<string>) {
    && (forall v :: v in ids ==> SafeText(v).Some?)
    && (forall u, v :: u in ids && v in ids && SafeText(u) == SafeText(v) ==> u == v)
  }

  function Members(ids: seq<string>): set<string> {
    set v | v in ids
  }

  lemma {:induction false} SafeTextsExactly(values: seq<string>)
    ensures SafeTexts(values).Some? <==> forall i :: 0 <= i < |values| ==> SafeText(values[i]).Some?
    ensures SafeTexts(values).Some? ==>
              && |SafeTexts(values).value| == |values|
              && forall i :: 0 <= i < |values| ==> SafeText(values[i]) == Some(SafeTexts(values).value[i])
  {
    hide SafeText;
    if values != [] { SafeTextsExactly(values[..|values| - 1]); }
  }

  /** `_tuple` accepts exactly identifiers that are legal and read differently, and keeps each in its place, stripped. */
  lemma {:induction false} IdentifiersExactly(values: seq<string>)
    ensures Identifiers(values).Some? <==> Readable(Members(values)) && Distinct(values)
    ensures Identifiers(values).Some? ==>
              && |Identifiers(values).value| == |values| && Distinct(Identifiers(values).value)
              && forall i :: 0 <= i < |values| ==> SafeText(values[i]) == Some(Identifiers(values).value[i])
  {
    hide SafeText, SafeTexts, HasDuplicate;
    SafeTextsExactly(values);
    assert forall v :: v in Members(values) <==> v in values;
    if SafeTexts(values).Some? {
      var texts := SafeTexts(values).value;
      HasDuplicateExactly(texts);
      if Distinct(texts) {
        forall u, v | u in values && v in values && SafeText(u) == SafeText(v)
          ensures u == v
        {
          var i :| 0 <= i < |values| && values[i] == u;
          var j :| 0 <= j < |values| && values[j] == v;
          assert texts[i] == texts[j];
        }
        forall i, j | 0 <= i < j < |values|
          ensures values[i] != values[j]
        {
          assert texts[i] != texts[j];
        }
      } else {
        var i, j :| 0 <= i < j < |texts| && texts[i] == texts[j];
        assert SafeText(values[i]) == SafeText(values[j]);
        assert values[i] in values && values[j] in values;
      }
    } else {
      var i :| 0 <= i < |values| && SafeText(values[i]).None?;
      assert values[i] in values;
    }
  }

  // ---- Acquire ----

  /** The ids of the raw union in string order. */
  lemma {:induction false} UnionExactly(ids: seq<string>, task: string)
    ensures var all := Sorted(AdjoinAll([], ids + [task]), Leq);
            && Members(all) == Members(ids) + {task} && Distinct(all) && SortedBy(all, Leq)
  {
    hide Leq;
    var union := AdjoinAll([], ids + [task]);
    AdjoinAllExactly([], ids + [task]);
    LeqIsTotalOrder();
    SortedSorts(union, Leq);
    SortedPermutes(union, Leq);
    var all := Sorted(union, Leq);
    SameMembers(all, union);
    assert DistinctBy(union, x => x);
    DistinctByPermutes(union, all, x => x);
    assert forall i, j :: 0 <= i < j < |all| ==> (x => x)(all[i]) != (x => x)(all[j]);
  }

  /**
   `acquire_dependency`: it succeeds exactly when assignment is open and the ids can be stored
   together, and then the record holds exactly the old ids and the new one, stripped, each once,
   with everything else unchanged.
   */
  lemma {:induction false} AcquireExactly(r: Record, task: string)
    ensures Perform(r, Acquire(task)).Some? <==>
            && !Disabled(r.body.state) && Valid(r) && Readable(Members(r.body.dependencies) + {task}) && Identifiers(r.body.evidence).Some?
    ensures Perform(r, Acquire(task)).Some? ==>
              var t := Perform(r, Acquire(task)).value;
              && Valid(t) && t.body == r.body.(dependencies := t.body.dependencies, evidence := Identifiers(r.body.evidence).value)
              && Distinct(t.body.dependencies)
              && (forall x :: x in t.body.dependencies <==> exists v :: (v in r.body.dependencies || v == task) && SafeText(v) == Some(x))
  {
    hide SafeText, SafeTexts, Identifiers, Sorted, AdjoinAll;
    var all := Sorted(AdjoinAll([], r.body.dependencies + [task]), Leq);
    UnionExactly(r.body.dependencies, task);
    IdentifiersExactly(all);
    if Perform(r, Acquire(task)).Some? {
      var deps := Perform(r, Acquire(task)).value.body.dependencies;
      assert deps == Identifiers(all).value;
      assert forall v :: v in all <==> v in Members(all);
      assert forall v :: v in Members(all) <==> v in r.body.dependencies || v == task;
      SameReadings(all, deps);
    }
  }

  lemma {:induction false} SameReadings(values: seq<string>, texts: seq<string>)
    requires |texts| == |values| && forall i :: 0 <= i < |values| ==> SafeText(values[i]) == Some(texts[i])
    ensures forall x :: x in texts <==> exists v :: v in values && SafeText(v) == Some(x)
  {
    hide SafeText;
    forall x | x in texts
      ensures exists v :: v in values && SafeText(v) == Some(x)
    {
      var i :| 0 <= i < |texts| && texts[i] == x;
      assert values[i] in values;
    }
    forall v | v in values
      ensures SafeText(v).Some? && SafeText(v).value in texts
    {
      var i :| 0 <= i < |values| && values[i] == v;
    }
  }

  /**
   The stored ids are in string order exactly when stripping keeps the order of the ids as given:
   they are sorted before they are stripped.
   */
  lemma {:induction false} AcquiredSortedExactly(r: Record, task: string)
    requires Perform(r, Acquire(task)).Some?
    ensures SortedBy(Perform(r, Acquire(task)).value.body.dependencies, Leq) <==>
            forall u, v :: u in Members(r.body.dependencies) + {task} && v in Members(r.body.dependencies) + {task} && Leq(u, v) ==>
              Leq(Strip(u), Strip(v))
  {
    hide SafeTexts, Sorted, AdjoinAll, Leq, Strip, SafeTail;
    var all := Sorted(AdjoinAll([], r.body.dependencies + [task]), Leq);
    var deps := Perform(r, Acquire(task)).value.body.dependencies;
    UnionExactly(r.body.dependencies, task);
    hide Identifiers;
    IdentifiersExactly(all);
    assert forall v :: v in all <==> v in Members(all);
    StripsSorted(all, deps);
  }

  lemma {:induction false} StripsSorted(values: seq<string>, texts: seq<string>)
    requires |texts| == |values| && (forall i :: 0 <= i < |values| ==> SafeText(values[i]) == Some(texts[i])) && SortedBy(values, Leq)
    ensures SortedBy(texts, Leq) <==> forall u, v :: u in values && v in values && Leq(u, v) ==> Leq(Strip(u), Strip(v))
  {
    hide Leq, Strip, SafeTail;
    assert forall i :: 0 <= i < |values| ==> texts[i] == Strip(values[i]);
    hide SafeText;
    if SortedBy(texts, Leq) {
      forall u, v | u in values && v in values && Leq(u, v)
        ensures Leq(Strip(u), Strip(v))
      {
        var i :| 0 <= i < |values| && values[i] == u;
        var j :| 0 <= j < |values| && values[j] == v;
        LeqTotal(Strip(u), Strip(v));
        if i > j { LeqAntisymmetric(u, v); }
      }
    }
    if forall u, v :: u in values && v in values && Leq(u, v) ==> Leq(Strip(u), Strip(v)) {
      forall i, j | 0 <= i < j < |texts|
        ensures Leq(texts[i], texts[j])
      {
        assert values[i] in values && values[j] in values;
      }
    }
  }

  lemma {:induction false} PaddedTexts()
    ensures SafeText("a") == Some("a") && SafeText("b") == Some("b") && SafeText(" b") == Some("b")
    ensures Strip("a") == "a" && Strip(" b") == "b" && Leq(" b", "a") && !Leq("b", "a")
  {
    StripTrims("a");
    StripTrims("b");
    StripLeadingBlank("b");
    assert " " + "b" == " b" && "a"[1..] == "" && "b"[1..] == "";
  }

  /** A padded id breaks the order: it is sorted as " b", before "a", and stored as "b". */
  lemma {:induction false} PaddedIdIsOutOfOrder(r: Record)
    requires Valid(r) && r.body.state == ACTIVE && r.body.dependencies == ["a"] && Identifiers(r.body.evidence).Some?
    ensures var t := Perform(r, Acquire(" b"));
            t.Some? && !SortedBy(t.value.body.dependencies, Leq) && Members(t.value.body.dependencies) == {"a", "b"}
  {
    hide SafeText, Identifiers, Strip, Leq, Perform, SortedBy;
    PaddedTexts();
    var all := Members(["a"]) + {" b"};
    assert all == {"a", " b"};
    assert Readable(all);
    AcquireExactly(r, " b");
    AcquiredSortedExactly(r, " b");
    var deps := Perform(r, Acquire(" b")).value.body.dependencies;
    assert forall x :: x in deps <==> x == "a" || x == "b";
  }

  // ---- Release ----

  /** Dropping keeps every other id, in order. */
  lemma {:induction false} DroppingKeepsOrder(ids: seq<string>, task: string, i: nat)
    requires i < |ids| && ids[i] != task
    ensures |Dropping(ids[..i], task)| < |Dropping(ids, task)|
    ensures Dropping(ids, task)[|Dropping(ids[..i], task)|] == ids[i]
  {
    var init := ids[..|ids| - 1];
    if i < |init| {
      DroppingKeepsOrder(init, task, i);
      assert init[..i] == ids[..i];
    }
  }

  lemma {:induction false} DroppingDistinct(ids: seq<string>, task: string)
    ensures Distinct(ids) ==> Distinct(Dropping(ids, task))
    ensures |Dropping(ids, task)| == |ids| - multiset(ids)[task]
  {
    if ids != [] {
      var init, last := ids[..|ids| - 1], ids[|ids| - 1];
      DroppingDistinct(init, task);
      DroppingShrinks(init, task);
      assert ids == init + [last];
      if Distinct(ids) {
        assert forall i :: 0 <= i < |init| ==> init[i] == ids[i];
        assert last !in init;
        assert forall x :: x in Dropping(init, task) ==> x in init;
      }
    }
  }

  /**
   `release_dependency`: it succeeds exactly when the other ids can be stored, and then the record
   holds exactly those, with everything else unchanged. The id is compared as given, not stripped.
   */
  lemma {:induction false} ReleaseExactly(r: Record, task: string)
    ensures Perform(r, Release(task)).Some? <==>
            && Valid(r) && Readable(Members(r.body.dependencies) - {task}) && Distinct(Dropping(r.body.dependencies, task))
            && Identifiers(r.body.evidence).Some?
    ensures Perform(r, Release(task)).Some? ==>
              var t := Perform(r, Release(task)).value;
              && Valid(t) && t.body == r.body.(dependencies := t.body.dependencies, evidence := Identifiers(r.body.evidence).value)
              && Distinct(t.body.dependencies)
              && (forall x :: x in t.body.dependencies <==> exists v :: v in r.body.dependencies && v != task && SafeText(v) == Some(x))
              && (Stored(r) ==> t.body.dependencies == Dropping(r.body.dependencies, task))
  {
    hide SafeText, SafeTexts, Identifiers;
    var rest := Dropping(r.body.dependencies, task);
    DroppingShrinks(r.body.dependencies, task);
    assert Members(rest) == Members(r.body.dependencies) - {task};
    IdentifiersExactly(rest);
    if Perform(r, Release(task)).Some? {
      var deps := Perform(r, Release(task)).value.body.dependencies;
      SameReadings(rest, deps);
      if Stored(r) {
        assert forall i :: 0 <= i < |rest| ==> rest[i] in rest;
        assert deps == rest;
      }
    }
  }

  /** What a stored record holds after an acquire. */
  lemma {:induction false} AcquiredMembers(r: Record, task: string)
    requires Stored(r) && Perform(r, Acquire(task)).Some?
    ensures var t := Perform(r, Acquire(task)).value;
            && Stored(t) && Distinct(t.body.dependencies) && Members(t.body.dependencies) == Members(r.body.dependencies) + {Strip(task)}
            && SafeText(task) == Some(Strip(task)) && Identifiers(t.body.evidence) == Some(t.body.evidence)
  {
    AcquireExactly(r, task);
    AcquiredIsStored(r, task);
    hide Perform, SafeTail, Strip, Identifiers;
    assert SafeText(task) == Some(Strip(task)) by { assert task in Members(r.body.dependencies) + {task}; }
    SafeEvidenceAgain(r.body.evidence);
    hide SafeText;
    var t := Perform(r, Acquire(task)).value;
    assert forall x :: x in t.body.dependencies <==> x in r.body.dependencies || x == Strip(task);
  }

  /** Releasing what was acquired, by the same text, lets it go exactly when that text is not padded. */
  lemma {:induction false} ReleaseUndoesAcquireExactly(r: Record, task: string)
    requires Stored(r) && Perform(r, Acquire(task)).Some?
    ensures var t := Perform(Perform(r, Acquire(task)).value, Release(task));
            && t.Some?
            && Members(t.value.body.dependencies) == (if task == Strip(task) then Members(r.body.dependencies) - {task}
                                                      else Members(r.body.dependencies) + {Strip(task)})
  {
    hide Perform, SafeText, Strip, Dropping, Identifiers;
    AcquiredMembers(r, task);
    var a := Perform(r, Acquire(task)).value;
    ReleaseExactly(a, task);
    DroppingDistinct(a.body.dependencies, task);
    assert Readable(Members(a.body.dependencies) - {task});
    var t := Perform(a, Release(task)).value;
    assert forall x :: x in t.body.dependencies <==> x in a.body.dependencies && x != task;
    assert Members(t.body.dependencies) == Members(a.body.dependencies) - {task};
    if task != Strip(task) { PaddedIsNotKept(r, task); }
  }

  /** A stored id is not padded. */
  lemma {:induction false} PaddedIsNotKept(r: Record, task: string)
    requires Stored(r) && task != Strip(task)
    ensures task !in r.body.dependencies
  {}

  lemma {:induction false} AcquiredIsStored(r: Record, task: string)
    requires Perform(r, Acquire(task)).Some?
    ensures Stored(Perform(r, Acquire(task)).value)
  {
    hide SafeText, SafeTexts, Sorted, AdjoinAll;
    CreatedIsStored(r.body.contract, r.body.terms, r.body.state, r.body.health, Sorted(AdjoinAll([], r.body.dependencies + [task]), Leq), r.body.evidence);
  }

  /** What was read once reads the same again. */
  lemma {:induction false} SafeEvidenceAgain(values: seq<string>)
    requires Identifiers(values).Some?
    ensures Identifiers(Identifiers(values).value) == Identifiers(values)
  {
    hide SafeText;
    SafeTextsAreSafe(values);
    SafeTextsExactly(SafeTexts(values).value);
    SafeTextsOfSafeAgain(SafeTexts(values).value);
  }

  lemma {:induction false} SafeTextsOfSafeAgain(texts: seq<string>)
    requires forall v :: v in texts ==> SafeText(v) == Some(v)
    ensures SafeTexts(texts) == Some(texts)
  {
    hide SafeText;
    SafeTextsExactly(texts);
    assert forall i :: 0 <= i < |texts| ==> texts[i] in texts;
    assert SafeTexts(texts).value == texts;
  }

  // ---- Moves ----

  /** The states a state is entered from. */
  function EnteredFrom(target: State): set<State> {
    match target
    case DISCOVERED => {}
    case CANDIDATE => {DISCOVERED}
    case SANDBOX => {CANDIDATE}
    case QUALIFIED => {SANDBOX}
    case ACTIVE => {QUALIFIED, DEGRADED, QUARANTINED}
    case DEGRADED => {ACTIVE}
    case QUARANTINED => {CANDIDATE, SANDBOX, QUALIFIED, ACTIVE, DEGRADED}
    case DISABLE_NEW_ASSIGNMENT => {ACTIVE, DEGRADED, QUARANTINED}
    case DRAINING => {DISABLE_NEW_ASSIGNMENT}
    case SUPERSEDED => {DRAINING}
    case DEPRECATED => {DRAINING}
    case RETIRED => {ACTIVE, DRAINING, SUPERSEDED, DEPRECATED}
  }

  lemma EnteredExactly(s: State, target: State)
    ensures target in Allowed(s) <==> s in EnteredFrom(target)
  {}

  /**
   A lifecycle transition: when it succeeds, and the whole record it makes. Retirement needs evidence
   and no dependency; old evidence stays in front and each new reference is added once.
   */
  lemma {:induction false} TransitionExactly(r: Record, target: State, evidence: seq<string>)
    requires Identifiers(r.body.dependencies) == Some(r.body.dependencies) && Identifiers(r.body.evidence) == Some(r.body.evidence)
    ensures Transition(r, target, evidence).Some? <==>
            && Valid(r) && r.body.state in EnteredFrom(target) && Readable(Members(evidence)) && Distinct(evidence)
            && (target == RETIRED ==> r.body.dependencies == [] && evidence != [])
    ensures Transition(r, target, evidence).Some? ==>
              var t := Transition(r, target, evidence).value;
              && Valid(t) && t.body == r.body.(state := target, evidence := t.body.evidence)
              && r.body.evidence <= t.body.evidence && Distinct(t.body.evidence)
              && (forall x :: x in t.body.evidence <==> x in r.body.evidence || exists v :: v in evidence && SafeText(v) == Some(x))
  {
    hide SafeText, SafeTexts, Identifiers, Allowed, EnteredFrom, AdjoinAll;
    EnteredExactly(r.body.state, target);
    IdentifiersExactly(evidence);
    IdentifiersExactly(r.body.evidence);
    IdentifiersExactly(r.body.dependencies);
    if Identifiers(evidence).Some? {
      var refs := Identifiers(evidence).value;
      SameReadings(evidence, refs);
      var all := AdjoinAll([], r.body.evidence + refs);
      EvidenceUnion(r.body.evidence, evidence);
    }
  }

  lemma {:induction false} EvidenceUnion(old': seq<string>, evidence: seq<string>)
    requires Identifiers(old') == Some(old') && Identifiers(evidence).Some?
    ensures var all := AdjoinAll([], old' + Identifiers(evidence).value);
            && Identifiers(all) == Some(all) && old' <= all && Distinct(all)
            && (forall x :: x in all <==> x in old' || x in Identifiers(evidence).value)
  {
    hide SafeText, SafeTexts, HasDuplicate, AdjoinAll;
    var refs := Identifiers(evidence).value;
    var all := AdjoinAll([], old' + refs);
    AdjoinAllExactly([], old' + refs);
    SafeTextsAreSafe(old');
    SafeTextsAreSafe(evidence);
    SafeTextsOfSafeAgain(all);
    HasDuplicateExactly(all);
    HasDuplicateExactly(old');
    AdjoinAllPrefix(old', refs);
  }

  lemma {:induction false} AdjoinAllSplit(seen: seq<string>, a: seq<string>, b: seq<string>)
    ensures AdjoinAll(seen, a + b) == AdjoinAll(AdjoinAll(seen, a), b)
    decreases |a|
  {
    if a == [] {
      assert a + b == b;
    } else {
      assert (a + b)[1..] == a[1..] + b;
      AdjoinAllSplit(Adjoin(seen, a[0]), a[1..], b);
    }
  }

  lemma {:induction false} AdjoinAllDistinct(seen: seq<string>, more: seq<string>)
    requires Distinct(seen + more)
    ensures AdjoinAll(seen, more) == seen + more
    decreases |more|
  {
    if more != [] {
      assert seen + more == seen + [more[0]] + more[1..];
      assert (seen + more)[|seen|] == more[0];
      assert more[0] !in seen by {
        assert forall i :: 0 <= i < |seen| ==> (seen + more)[i] == seen[i];
      }
      AdjoinAllDistinct(seen + [more[0]], more[1..]);
    }
  }

  lemma {:induction false} AdjoinAllPrefix(old': seq<string>, more: seq<string>)
    requires Distinct(old')
    ensures old' <= AdjoinAll([], old' + more)
  {
    AdjoinAllSplit([], old', more);
    assert [] + old' == old';
    AdjoinAllDistinct([], old');
    AdjoinAllExactly(old', more);
  }

  // ---- How long a dependency is held ----

  lemma {:induction false} StillHeld(r: Record, op: Op, id: string)
    requires Stored(r) && id in r.body.dependencies && Perform(r, op).Some? && op != Release(id)
    ensures Stored(Perform(r, op).value) && id in Perform(r, op).value.body.dependencies
    ensures !(op.Move? && op.target == RETIRED)
  {
    hide SafeText, SafeTexts, Sorted, AdjoinAll, Identifiers;
    PerformKeeps(r, op);
    match op
    case Acquire(task) =>
      AcquireExactly(r, task);
    case Release(task) =>
      ReleaseExactly(r, task);
    case BeginDrain(ref) =>
      TransitionKeeps(r, DISABLE_NEW_ASSIGNMENT, [ref]);
      TransitionKeeps(Transition(r, DISABLE_NEW_ASSIGNMENT, [ref]).value, DRAINING, [ref]);
    case Move(target, evidence) =>
      TransitionKeeps(r, target, evidence);
  }

  lemma {:induction false} HeldAfter(r: Record, ops: seq<Op>, id: string)
    requires Stored(r) && id in r.body.dependencies && Release(id) !in ops
    ensures Stored(After(r, ops)) && id in After(r, ops).body.dependencies
  {
    hide Perform, Stored;
    if ops != [] {
      var init, op := ops[..|ops| - 1], ops[|ops| - 1];
      HeldAfter(r, init, id);
      if Perform(After(r, init), op).Some? { StillHeld(After(r, init), op, id); }
    }
  }

  /**
   From a successful acquire until the id is released, over every run of operations: the id is among
   the dependencies, and no move to RETIRED succeeds.
   */
  lemma {:induction false} HeldUntilReleased(r: Record, task: string, ops: seq<Op>)
    requires Perform(r, Acquire(task)).Some? && Release(Strip(task)) !in ops
    ensures var t := After(Perform(r, Acquire(task)).value, ops);
            && Strip(task) in t.body.dependencies
            && forall evidence :: Perform(t, Move(RETIRED, evidence)).None?
  {
    hide Perform, Stored, Strip, SafeTail;
    AcquireExactly(r, task);
    AcquiredIsStored(r, task);
    assert SafeText(task) == Some(Strip(task)) by { assert task in Members(r.body.dependencies) + {task}; }
    var held, id := Perform(r, Acquire(task)).value, Strip(task);
    HeldAfter(held, ops, id);
    forall evidence
      ensures Perform(After(held, ops), Move(RETIRED, evidence)).None?
    {
      if Perform(After(held, ops), Move(RETIRED, evidence)).Some? {
        StillHeld(After(held, ops), Move(RETIRED, evidence), id);
      }
    }
  }

  lemma {:induction false} AfterFirst(r: Record, op: Op, ops: seq<Op>)
    requires Perform(r, op).Some?
    ensures After(r, [op] + ops) == After(Perform(r, op).value, ops)
  {
    hide Perform;
    if ops == [] {
      assert [op] + ops == [op] && [op][..0] == [];
    } else {
      AfterFirst(r, op, ops[..|ops| - 1]);
      assert ([op] + ops)[..|ops|] == [op] + ops[..|ops| - 1];
    }
  }
}
