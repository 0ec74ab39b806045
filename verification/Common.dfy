/** Result shapes shared by the models. */
module Common {
  datatype Option<+T> = None | Some(value: T)

  /** An operation either returns a value or raises with a reason. */
  datatype Result<+T, +E> = Ok(value: T) | Err(error: E)

  /** The last `n` elements: Python's `s[-n:]` for a positive `n`. */
  function Last<T>(s: seq<T>, n: nat): seq<T> {
    if |s| <= n then s else s[|s| - n..]
  }

  ghost predicate Distinct<T>(s: seq<T>) {
    forall i, j :: 0 <= i < j < |s| ==> s[i] != s[j]
  }

  /** `len(s) != len(set(s))` */
  predicate HasDuplicate<T(==)>(s: seq<T>) {
    s != [] && (s[|s| - 1] in s[..|s| - 1] || HasDuplicate(s[..|s| - 1]))
  }

  lemma {:induction false} HasDuplicateExactly<T>(s: seq<T>)
    ensures HasDuplicate(s) <==> !Distinct(s)
  {
    if s != [] {
      var init, last := s[..|s| - 1], s[|s| - 1];
      HasDuplicateExactly(init);
      assert forall i :: 0 <= i < |init| ==> init[i] == s[i];
      if last in init {
        var i :| 0 <= i < |init| && init[i] == last;
        assert s[i] == s[|s| - 1];
      } else {
        assert forall i :: 0 <= i < |init| ==> s[i] != last;
      }
    }
  }

  /** One key of `dict.fromkeys`: appended unless already present. */
  function Adjoin<T(==)>(seen: seq<T>, x: T): seq<T> {
    if x in seen then seen else seen + [x]
  }

  /** The keys of `dict.fromkeys((*seen, *more))`: later repetitions are dropped. */
  function AdjoinAll<T(==)>(seen: seq<T>, more: seq<T>): seq<T>
    decreases |more|
  {
    if more == [] then seen else AdjoinAll(Adjoin(seen, more[0]), more[1..])
  }

  /** Adjoining keeps what is there, adds exactly the new members and never repeats one. */
  lemma {:induction false} AdjoinAllExactly<T>(seen: seq<T>, more: seq<T>)
    requires Distinct(seen)
    ensures seen <= AdjoinAll(seen, more) && Distinct(AdjoinAll(seen, more))
    ensures forall x :: x in AdjoinAll(seen, more) <==> x in seen || x in more
    decreases |more|
  {
    if more != [] {
      AdjoinAllExactly(Adjoin(seen, more[0]), more[1..]);
      assert more == [more[0]] + more[1..];
      assert forall x :: x in Adjoin(seen, more[0]) <==> x in seen || x == more[0];
    }
  }
}
