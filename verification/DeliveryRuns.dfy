/**
 The durable steps of the delivery adapter and every run they can form.

 One step is one atomic durable write or one remote post; `Restart` may follow any step, so
 the runs below contain a crash between every two writes of every operation.
 */
module DeliveryRuns {
  import opened Common
  import opened PendingQueues

  type Limit = n: nat | 0 < n witness 1

  /** Where a publish stands: nothing open, posted but not acknowledged, acknowledged but not cleaned up. */
  datatype Phase = Idle | Posted(open: Delivery) | Committed(done: Delivery)

  /**
   Files, memory, and what an outside observer has seen so far:
   - `posted`: remote publishes made with a delivery at the head of its queue, `bare`: those under a message with none
   - `torn`: publishes interrupted between the remote post and the ack write
   - `lost`: ack entries later removed from the ack ledger (evicted or replaced)
   - `handed`: deliveries handed to the service, `acked`: acks ever committed
   - `retired`: explicit retirements, `dropped`: deliveries cut off by the pending ledger's limit
   */
  datatype State = State(
    acks: seq<Delivery>, file: seq<Delivery>, queues: seq<Queue>, phase: Phase,
    posted: multiset<Delivery>, bare: multiset<string>, torn: multiset<Delivery>, lost: multiset<Delivery>,
    handed: set<Delivery>, acked: set<Delivery>, retired: set<Delivery>, dropped: set<Delivery>)

  datatype Step =
    | Remember(d: Delivery)      // queue append and pending save
    | Reconcile(d: Delivery)     // pending cleanup of an acknowledged delivery
    | Retire(d: Delivery)        // explicit retirement
    | Post(message: string)      // remote publish accepted
    | CommitAck                  // ack ledger save
    | PostErrored                // the post landed, the client raised, the process lives on
    | HandOut(ds: set<Delivery>) // receive returns
    | Restart                    // crash at this point, then a new adapter over the same files

  const Initial := State([], [], [], Idle, multiset{}, multiset{}, multiset{}, multiset{}, {}, {}, {}, {})

  function DropSource(acks: seq<Delivery>, source: string): seq<Delivery> {
    if acks == [] then []
    else if acks[0].source == source then DropSource(acks[1..], source)
    else [acks[0]] + DropSource(acks[1..], source)
  }

  /** The ack ledger after the entry for `d` replaced any entry of the same source. */
  function WithAck(acks: seq<Delivery>, d: Delivery, limit: Limit): seq<Delivery> {
    Last(DropSource(acks, d.source) + [d], limit)
  }

  /** `_is_durably_acknowledged`: an entry with this source id and this content digest. */
  predicate PairAcked(acks: seq<Delivery>, d: Delivery) {
    exists i :: 0 <= i < |acks| && acks[i].source == d.source && acks[i].digest == d.digest
  }

  function Head(qs: seq<Queue>, message: string): Option<Delivery> {
    var q := QueueOf(qs, message);
    if q == [] then None else Some(q[0])
  }

  /** What `_validate_delivery_entry` asks of a ledger entry; the digest is well formed by its type. */
  predicate ValidEntry(d: Delivery) {
    d.source != "" && d.message != ""
  }

  /** `_load_delivery_acks` and `_load_delivery_pending` on entries read from the file; None where they raise. */
  function LoadLedger(entries: seq<Delivery>, limit: Limit): Option<seq<Delivery>> {
    if exists i :: 0 <= i < |entries| && !ValidEntry(entries[i]) then None
    else if |entries| > limit then None
    else Some(entries)
  }

  ghost predicate Enabled(s: State, step: Step) {
    match step
    case Remember(d) => s.phase.Idle? && ValidEntry(d) && d !in QueueOf(s.queues, d.message)
    case Reconcile(d) => (s.phase.Idle? || s.phase == Committed(d)) && PairAcked(s.acks, d)
    case Retire(d) => s.phase.Idle? && d in QueueOf(s.queues, d.message)
    case Post(m) => s.phase.Idle? && (Head(s.queues, m).Some? ==> Head(s.queues, m).value !in s.acks)
    case CommitAck => s.phase.Posted?
    case PostErrored => s.phase.Posted?
    case HandOut(ds) => s.phase.Idle? && forall d :: d in ds ==> d in Flatten(s.queues) && !PairAcked(s.acks, d)
    case Restart => true
  }

  /** Replace the queues and save them; what the limit cuts off is `dropped`. */
  ghost function Saved(s: State, qs: seq<Queue>, limit: Limit): State {
    var file := Last(Flatten(qs), limit);
    s.(queues := qs, file := file, dropped := s.dropped + set d | d in Flatten(qs) && d !in file)
  }

  ghost function Apply(s: State, step: Step, limit: Limit): State
    requires Enabled(s, step)
  {
    match step
    case Remember(d) => Saved(s, Enqueue(s.queues, d), limit)
    case Reconcile(d) => Saved(s.(phase := Idle), Discard(s.queues, d), limit)
    case Retire(d) => Saved(s.(retired := s.retired + {d}), Discard(s.queues, d), limit)
    case Post(m) =>
      var head := Head(s.queues, m);
      if head.None? then s.(bare := s.bare + multiset{m}) else s.(phase := Posted(head.value), posted := s.posted + multiset{head.value})
    case CommitAck =>
      var acks := WithAck(s.acks, s.phase.open, limit);
      s.(acks := acks, phase := Committed(s.phase.open), acked := s.acked + {s.phase.open},
         lost := s.lost + multiset(set e | e in s.acks && e !in acks))
    case PostErrored => s.(phase := Idle, torn := s.torn + multiset{s.phase.open})
    case HandOut(ds) => s.(handed := s.handed + ds)
    case Restart =>
      var torn := if s.phase.Posted? then s.torn + multiset{s.phase.open} else s.torn;
      s.(queues := Rebuild(s.file), phase := Idle, torn := torn)
  }

  /** A run is legal when each step is enabled in the state the steps before it lead to. */
  ghost predicate Legal(run: seq<Step>, limit: Limit)
    decreases |run|, 0
  {
    run == [] || (Legal(run[..|run| - 1], limit) && Enabled(Exec(run[..|run| - 1], limit), run[|run| - 1]))
  }

  ghost function Exec(run: seq<Step>, limit: Limit): State
    requires Legal(run, limit)
    decreases |run|, 1
  {
    if run == [] then Initial else Apply(Exec(run[..|run| - 1], limit), run[|run| - 1], limit)
  }

  lemma {:induction false} Extend(run: seq<Step>, step: Step, limit: Limit)
    requires Legal(run, limit) && Enabled(Exec(run, limit), step)
    ensures Legal(run + [step], limit) && Exec(run + [step], limit) == Apply(Exec(run, limit), step, limit)
  {
    assert (run + [step])[..|run + [step]| - 1] == run;
  }

  ghost predicate UniqueSources(acks: seq<Delivery>) {
    forall i, j :: 0 <= i < j < |acks| ==> acks[i].source != acks[j].source
  }

  function One(b: bool): nat { if b then 1 else 0 }

  ghost predicate LedgersInv(s: State, limit: Limit) {
    && ValidQueues(s.queues)
    && s.file == Last(Flatten(s.queues), limit)
    && UniqueSources(s.acks) && |s.acks| <= limit
    && (forall e :: e in s.acks ==> e in s.acked)
    && (s.phase.Posted? ==> s.phase.open !in s.acks)
    && (s.phase.Committed? ==> s.phase.done in s.acks)
  }

  /** Where the deliveries of a run come from, `a` being every delivery it remembers. */
  ghost predicate OriginInv(s: State, a: set<Delivery>) {
    && (forall d :: d in Flatten(s.queues) ==> d in a)
    && (forall d :: d in s.acked ==> d in a)
    && (forall d :: d in s.handed ==> d in a)
    && (s.phase.Posted? ==> s.phase.open in a)
  }

  /** The deliveries a run remembers, by receiving them or by re-arming them. */
  ghost function Remembered(run: seq<Step>): set<Delivery> {
    set step | step in run && step.Remember? :: step.d
  }

  /** Every remote publish is accounted for by an interruption, a lost ack, a live ack or the open publish. */
  ghost predicate PublishInv(s: State) {
    forall d: Delivery :: s.posted[d] == s.torn[d] + s.lost[d] + One(d in s.acks) + One(s.phase == Posted(d))
  }

  ghost predicate Accounted(s: State, d: Delivery) {
    d in s.file || (exists e :: e in s.acked && e.source == d.source && e.digest == d.digest) || d in s.retired || d in s.dropped
  }

  /** The same with the exact ack: this very delivery was acknowledged, message id included. */
  ghost predicate ExactlyAccounted(s: State, d: Delivery) {
    d in s.file || d in s.acked || d in s.retired || d in s.dropped
  }

  /** No two deliveries differ in their message id alone. */
  ghost predicate Unambiguous(a: set<Delivery>) {
    forall d, e :: d in a && e in a && d.source == e.source && d.digest == e.digest ==> d == e
  }

  ghost predicate CustodyInv(s: State) {
    && (forall d :: d in Flatten(s.queues) ==> d in s.file || d in s.dropped)
    && (forall d :: d in s.handed ==> Accounted(s, d))
  }

  lemma {:induction false} DropSourceMembers(acks: seq<Delivery>, source: string)
    ensures forall e :: e in DropSource(acks, source) <==> e in acks && e.source != source
    ensures |DropSource(acks, source)| <= |acks|
  {
    if acks != [] {
      DropSourceMembers(acks[1..], source);
      assert acks == [acks[0]] + acks[1..];
    }
  }

  lemma {:induction false} DropSourceAbsent(acks: seq<Delivery>, source: string)
    requires forall i :: 0 <= i < |acks| ==> acks[i].source != source
    ensures DropSource(acks, source) == acks
  {
    if acks != [] { DropSourceAbsent(acks[1..], source); }
  }

  lemma {:induction false} DropSourceAt(acks: seq<Delivery>, source: string, i: nat)
    requires UniqueSources(acks) && i < |acks| && acks[i].source == source
    ensures DropSource(acks, source) == acks[..i] + acks[i + 1..]
  {
    if i == 0 {
      DropSourceAbsent(acks[1..], source);
    } else {
      DropSourceAt(acks[1..], source, i - 1);
    }
  }

  /** At most one entry has the source; the others keep their order. */
  lemma {:induction false} DropSourceKeeps(acks: seq<Delivery>, source: string)
    requires UniqueSources(acks)
    ensures UniqueSources(DropSource(acks, source))
    ensures forall i :: 0 <= i < |acks| && acks[i].source == source ==> DropSource(acks, source) == acks[..i] + acks[i + 1..]
    ensures (forall i :: 0 <= i < |acks| ==> acks[i].source != source) ==> DropSource(acks, source) == acks
  {
    hide DropSource;
    forall i | 0 <= i < |acks| && acks[i].source == source
      ensures DropSource(acks, source) == acks[..i] + acks[i + 1..]
    {
      DropSourceAt(acks, source, i);
    }
    if forall i :: 0 <= i < |acks| ==> acks[i].source != source { DropSourceAbsent(acks, source); }
  }

  lemma {:induction false} WithAckKeeps(acks: seq<Delivery>, d: Delivery, limit: Limit)
    requires UniqueSources(acks)
    ensures UniqueSources(WithAck(acks, d, limit)) && |WithAck(acks, d, limit)| <= limit
    ensures d in WithAck(acks, d, limit)
    ensures forall e :: e in WithAck(acks, d, limit) ==> e == d || (e in acks && e.source != d.source)
    ensures |acks| < limit ==> forall e :: e in acks && e.source != d.source ==> e in WithAck(acks, d, limit)
  {
    DropSourceMembers(acks, d.source);
    DropSourceKeeps(acks, d.source);
    var all := DropSource(acks, d.source) + [d];
    var kept := WithAck(acks, d, limit);
    forall i | 0 <= i < |all| - 1
      ensures all[i].source != d.source
    {
      assert all[i] in DropSource(acks, d.source);
    }
    assert UniqueSources(all);
    assert kept[|kept| - 1] == d;
  }

  lemma SavedKeeps(s: State, qs: seq<Queue>, limit: Limit)
    requires ValidQueues(qs)
    ensures var t := Saved(s, qs, limit);
            forall d :: d in Flatten(qs) ==> d in t.file || d in t.dropped
  {}

  lemma {:induction false} StepLedgers(s: State, step: Step, limit: Limit)
    requires LedgersInv(s, limit) && Enabled(s, step)
    ensures LedgersInv(Apply(s, step, limit), limit)
  {
    match step
    case Remember(d) => EnqueueAdds(s.queues, d);
    case Reconcile(d) => DiscardRemoves(s.queues, d);
    case Retire(d) => DiscardRemoves(s.queues, d);
    case CommitAck => WithAckKeeps(s.acks, s.phase.open, limit);
    case Restart => BoundedLedger(s.queues, limit);
    case Post(m) =>
    case PostErrored =>
    case HandOut(ds) =>
  }

  lemma {:induction false} StepPublish(s: State, step: Step, limit: Limit)
    requires LedgersInv(s, limit) && PublishInv(s) && Enabled(s, step)
    ensures PublishInv(Apply(s, step, limit))
  {
    var t := Apply(s, step, limit);
    if step.CommitAck? {
      WithAckKeeps(s.acks, s.phase.open, limit);
      var gone := set e | e in s.acks && e !in t.acks;
      forall d: Delivery
        ensures t.posted[d] == t.torn[d] + t.lost[d] + One(d in t.acks) + One(t.phase == Posted(d))
      {
        assert multiset(gone)[d] == One(d in gone);
        assert s.posted[d] == s.torn[d] + s.lost[d] + One(d in s.acks) + One(s.phase == Posted(d));
      }
    }
  }

  lemma {:induction false} StepCustody(s: State, step: Step, limit: Limit)
    requires LedgersInv(s, limit) && CustodyInv(s) && Enabled(s, step)
    ensures CustodyInv(Apply(s, step, limit))
  {
    hide Flatten, Enqueue, Discard, QueueOf, ValidQueues, WithAck, PublishInv;
    var t := Apply(s, step, limit);
    assert forall d :: d in s.file ==> d in Flatten(s.queues);
    match step
    case Remember(x) =>
      EnqueueAdds(s.queues, x);
      SavedKeeps(s, t.queues, limit);
    case Reconcile(x) =>
      DiscardRemoves(s.queues, x);
      SavedKeeps(s.(phase := Idle), t.queues, limit);
      var i :| 0 <= i < |s.acks| && s.acks[i].source == x.source && s.acks[i].digest == x.digest;
      assert s.acks[i] in s.acked;
    case Retire(x) =>
      DiscardRemoves(s.queues, x);
      SavedKeeps(s.(retired := s.retired + {x}), t.queues, limit);
    case Restart => BoundedLedger(s.queues, limit);
    case CommitAck =>
      forall d | d in t.handed
        ensures Accounted(t, d)
      {
        assert Accounted(s, d);
      }
    case Post(m) =>
      forall d | d in t.handed
        ensures Accounted(t, d)
      {
        assert Accounted(s, d);
      }
    case PostErrored =>
      forall d | d in t.handed
        ensures Accounted(t, d)
      {
        assert Accounted(s, d);
      }
    case HandOut(ds) =>
      forall d | d in t.handed
        ensures Accounted(t, d)
      {
        assert d in s.handed ==> Accounted(s, d);
      }
  }

  lemma {:induction false} HeadIsQueued(qs: seq<Queue>, message: string)
    requires ValidQueues(qs) && Head(qs, message).Some?
    ensures Head(qs, message).value in Flatten(qs)
  {
    QueueMessages(qs, message);
    QueueMembership(qs, Head(qs, message).value);
  }

  lemma {:induction false} StepOrigins(s: State, step: Step, limit: Limit, a: set<Delivery>)
    requires LedgersInv(s, limit) && OriginInv(s, a) && Enabled(s, step) && (step.Remember? ==> step.d in a)
    ensures OriginInv(Apply(s, step, limit), a)
  {
    hide ValidQueues, UniqueSources, PairAcked, WithAck;
    match step
    case Remember(d) => EnqueueAdds(s.queues, d);
    case Reconcile(d) => DiscardRemoves(s.queues, d);
    case Retire(d) => DiscardRemoves(s.queues, d);
    case Restart => BoundedLedger(s.queues, limit);
    case Post(m) => if Head(s.queues, m).Some? { HeadIsQueued(s.queues, m); }
    case CommitAck =>
    case PostErrored =>
    case HandOut(ds) =>
  }

  lemma {:induction false} Origins(run: seq<Step>, limit: Limit, a: set<Delivery>)
    requires Legal(run, limit) && Remembered(run) <= a
    ensures OriginInv(Exec(run, limit), a)
    decreases |run|
  {
    hide Enabled, Apply, LedgersInv, OriginInv;
    if run == [] {
      NothingOriginates(a);
    } else {
      var before, step := run[..|run| - 1], run[|run| - 1];
      assert Remembered(before) <= Remembered(run);
      assert step in run && (step.Remember? ==> step.d in Remembered(run));
      Origins(before, limit, a);
      Reachable(before, limit);
      StepOrigins(Exec(before, limit), step, limit, a);
    }
  }

  lemma NothingOriginates(a: set<Delivery>)
    ensures OriginInv(Initial, a)
  {}

  lemma {:induction false} RememberedAreValid(run: seq<Step>, limit: Limit)
    requires Legal(run, limit)
    ensures forall d :: d in Remembered(run) ==> ValidEntry(d)
    decreases |run|
  {
    hide Apply;
    if run != [] {
      RememberedAreValid(run[..|run| - 1], limit);
      assert run == run[..|run| - 1] + [run[|run| - 1]];
    }
  }

  lemma {:induction false} Reachable(run: seq<Step>, limit: Limit)
    requires Legal(run, limit)
    ensures LedgersInv(Exec(run, limit), limit) && PublishInv(Exec(run, limit)) && CustodyInv(Exec(run, limit))
    decreases |run|
  {
    if run != [] {
      var before, step := run[..|run| - 1], run[|run| - 1];
      Reachable(before, limit);
      StepLedgers(Exec(before, limit), step, limit);
      StepPublish(Exec(before, limit), step, limit);
      StepCustody(Exec(before, limit), step, limit);
    }
  }

  /** The remote publishes of a run. */
  function Posts(run: seq<Step>): nat {
    if run == [] then 0 else Posts(run[..|run| - 1]) + if run[|run| - 1].Post? then 1 else 0
  }

  lemma {:induction false} EveryPostIsCounted(run: seq<Step>, limit: Limit)
    requires Legal(run, limit)
    ensures Posts(run) == |Exec(run, limit).posted| + |Exec(run, limit).bare|
    decreases |run|
  {
    hide Head, WithAck, Enqueue, Discard, Rebuild;
    if run != [] { EveryPostIsCounted(run[..|run| - 1], limit); }
  }

  /**
   At-most-once publishing, as an exact balance over every run: the remote publishes made for a
   delivery are its interruptions between post and ack, plus its acks that were later lost, plus
   one when its ack is on file or its publish is still open. With no lost ack that is at most one
   more than the interruptions. These and the publishes with nothing queued are all there are.
   */
  lemma {:induction false} PublishBalance(run: seq<Step>, limit: Limit, d: Delivery)
    requires Legal(run, limit)
    ensures var s := Exec(run, limit);
            && s.posted[d] == s.torn[d] + s.lost[d] + One(d in s.acks) + One(s.phase == Posted(d))
            && (s.lost[d] == 0 ==> s.posted[d] <= 1 + s.torn[d])
            && Posts(run) == |s.posted| + |s.bare|
  {
    hide Posts;
    Reachable(run, limit);
    EveryPostIsCounted(run, limit);
  }

  /** An ack leaves the ledger only when another ack is committed, for the same source or into a full ledger. */
  lemma {:induction false} AckLostOnlyByReplacementOrEviction(run: seq<Step>, step: Step, limit: Limit, e: Delivery)
    requires Legal(run + [step], limit) && Legal(run, limit)
    requires e in Exec(run, limit).acks && e !in Exec(run + [step], limit).acks
    ensures step.CommitAck? && (e.source == Exec(run, limit).phase.open.source || |Exec(run, limit).acks| == limit)
  {
    hide WithAck;
    assert (run + [step])[..|run|] == run;
    Reachable(run, limit);
    var s := Exec(run, limit);
    if step.CommitAck? { WithAckKeeps(s.acks, s.phase.open, limit); }
  }

  /** No saved pending ledger of the run ever had to cut an entry off. */
  ghost predicate WithinLimit(run: seq<Step>, limit: Limit)
    requires Legal(run, limit)
    decreases |run|
  {
    |Flatten(Exec(run, limit).queues)| <= limit && (run == [] || WithinLimit(run[..|run| - 1], limit))
  }

  /** A save of too many deliveries cuts the oldest one off. */
  lemma {:induction false} OverLimitDrops(s: State, qs: seq<Queue>, limit: Limit)
    requires ValidQueues(qs) && |Flatten(qs)| > limit
    ensures Saved(s, qs, limit).dropped != {}
  {
    FlattenDistinct(qs);
    var flat := Flatten(qs);
    var file := Last(flat, limit);
    assert forall i :: 0 <= i < |file| ==> file[i] == flat[|flat| - limit + i];
    assert flat[0] in flat && flat[0] !in file;
    assert flat[0] in Saved(s, qs, limit).dropped;
  }

  /** Something was cut off over a run if and only if a saved pending ledger exceeded the limit. */
  lemma {:induction false} CutOffExactly(run: seq<Step>, limit: Limit)
    requires Legal(run, limit)
    ensures Exec(run, limit).dropped == {} <==> WithinLimit(run, limit)
    decreases |run|
  {
    hide Enabled, Apply, LedgersInv;
    if run == [] {
      NothingQueued();
    } else {
      var before, step := run[..|run| - 1], run[|run| - 1];
      CutOffExactly(before, limit);
      Reachable(before, limit);
      DropsExactly(Exec(before, limit), step, limit);
    }
  }

  lemma NothingQueued()
    ensures Flatten(Initial.queues) == []
  {}

  /** One step cuts something off exactly when it leaves more queued than the limit allows. */
  lemma {:induction false} DropsExactly(s: State, step: Step, limit: Limit)
    requires LedgersInv(s, limit) && Enabled(s, step)
    ensures s.dropped <= Apply(s, step, limit).dropped
    ensures s.dropped == {} && |Flatten(s.queues)| <= limit ==>
              (Apply(s, step, limit).dropped == {} <==> |Flatten(Apply(s, step, limit).queues)| <= limit)
  {
    hide Flatten, Enqueue, Discard, ValidQueues, PairAcked;
    StepLedgers(s, step, limit);
    var t := Apply(s, step, limit);
    if step.Remember? || step.Reconcile? || step.Retire? {
      if |Flatten(t.queues)| > limit {
        OverLimitDrops(if step.Remember? then s else if step.Reconcile? then s.(phase := Idle) else s.(retired := s.retired + {step.d}), t.queues, limit);
      }
    } else if step.Restart? {
      BoundedLedger(s.queues, limit);
    }
  }

  /**
   Custody of handed-out controls in every reachable state: still on the pending ledger, or its
   source and content were acknowledged, or it was retired explicitly, or the ledger limit cut it
   off; while the ledger stays within its limit the last case never happens. When no two remembered
   deliveries differ in the message id alone, the ack is the exact one.
   */
  lemma {:induction false} HandedOutStaysPending(run: seq<Step>, limit: Limit, d: Delivery)
    requires Legal(run, limit) && d in Exec(run, limit).handed
    ensures Accounted(Exec(run, limit), d)
    ensures Unambiguous(Remembered(run)) ==> ExactlyAccounted(Exec(run, limit), d)
    ensures WithinLimit(run, limit) ==> Exec(run, limit).dropped == {}
  {
    hide Legal, Exec, LedgersInv, PublishInv, WithinLimit;
    Reachable(run, limit);
    Origins(run, limit, Remembered(run));
    if WithinLimit(run, limit) {
      CutOffExactly(run, limit);
    }
  }

  /** The message id is the one inside the digested control, as for every delivery that receive remembers. */
  ghost predicate CarriesOwnMessage(d: Delivery) {
    d.message == d.digest.control.messageId.AsText()
  }

  /** Re-arming with the message id that the digest carries keeps every delivery unambiguous. */
  lemma OwnMessagesAreUnambiguous(a: set<Delivery>)
    requires forall d :: d in a ==> CarriesOwnMessage(d)
    ensures Unambiguous(a)
  {}

  /**
   Exact custody over all runs that remember only deliveries of `a` holds if and only if no two of
   them differ in the message id alone.
   */
  lemma {:induction false} ExactCustodyIffUnambiguous(a: set<Delivery>, limit: Limit)
    requires forall d :: d in a ==> ValidEntry(d)
    ensures Unambiguous(a) <==>
            forall run, d :: Legal(run, limit) && Remembered(run) <= a && d in Exec(run, limit).handed ==> ExactlyAccounted(Exec(run, limit), d)
  {
    hide Legal, Exec, ExactlyAccounted;
    if Unambiguous(a) {
      forall run, d | Legal(run, limit) && Remembered(run) <= a && d in Exec(run, limit).handed
        ensures ExactlyAccounted(Exec(run, limit), d)
      {
        HandedOutStaysPending(run, limit, d);
      }
    } else {
      var d, e :| d in a && e in a && d.source == e.source && d.digest == e.digest && d != e;
      RearmedMessageLosesControl(d, e, limit);
      var run := LosingRun(d, e);
      assert Remembered(run) == {d, e};
    }
  }

  function LosingRun(d: Delivery, e: Delivery): seq<Step> {
    [Remember(e), Remember(d), HandOut({d}), Post(e.message), CommitAck, Reconcile(e), Reconcile(d)]
  }

  /**
   The failing runs: `e` was re-armed for the digest of `d` under another message id. Publishing `e`
   acknowledges source and content, the next receive of the comment cleans up `d` as well, and `d` is
   neither on file nor acknowledged, retired or cut off.
   */
  lemma {:induction false} RearmedMessageLosesControl(d: Delivery, e: Delivery, limit: Limit)
    requires ValidEntry(d) && ValidEntry(e) && d.source == e.source && d.digest == e.digest && d != e
    ensures Legal(LosingRun(d, e), limit)
    ensures var s := Exec(LosingRun(d, e), limit); d in s.handed && !ExactlyAccounted(s, d) && s.queues == [] && s.acks == [e]
  {
    hide Legal, Exec;
    RearmAndHandOut(d, e, limit);
    var first: seq<Step> := [Remember(e), Remember(d), HandOut({d})];
    PublishRearmed(first, d, e, limit);
    CleanUpBoth(first + [Post(e.message), CommitAck], d, e, limit);
    assert first + [Post(e.message), CommitAck] + [Reconcile(e), Reconcile(d)] == LosingRun(d, e);
  }

  /** Both deliveries pending and `d` handed out. */
  ghost predicate BothPending(s: State, d: Delivery, e: Delivery) {
    && s.queues == [Queue(e.message, [e]), Queue(d.message, [d])] && s.acks == [] && s.phase.Idle?
    && d in s.handed && d !in s.acked && d !in s.retired && d !in s.dropped
  }

  lemma {:induction false} RearmAndHandOut(d: Delivery, e: Delivery, limit: Limit)
    requires ValidEntry(d) && ValidEntry(e) && d.message != e.message
    ensures var run := [Remember(e), Remember(d), HandOut({d})]; Legal(run, limit) && BothPending(Exec(run, limit), d, e)
  {
    var r0: seq<Step> := [];
    assert Legal(r0, limit) && Exec(r0, limit) == Initial;
    TwoQueues(e, d);
    assert QueueOf([], e.message) == [];
    hide Legal, Exec, QueueOf, Flatten, Enqueue;
    Extend(r0, Remember(e), limit);
    var r1 := r0 + [Remember(e)];
    assert Exec(r1, limit).queues == [Queue(e.message, [e])];
    Extend(r1, Remember(d), limit);
    var r2 := r1 + [Remember(d)];
    assert Last([e], limit) == [e] && d in Last([e, d], limit);
    Extend(r2, HandOut({d}), limit);
    assert r2 + [HandOut({d})] == [Remember(e), Remember(d), HandOut({d})];
  }

  /** Publishing `e` leaves both queued, with an ack for the source and content of `d`. */
  lemma {:induction false} PublishRearmed(run: seq<Step>, d: Delivery, e: Delivery, limit: Limit)
    requires Legal(run, limit) && BothPending(Exec(run, limit), d, e) && d.message != e.message
    ensures var all := run + [Post(e.message), CommitAck];
            && Legal(all, limit)
            && var s := Exec(all, limit);
               && s.queues == [Queue(e.message, [e]), Queue(d.message, [d])] && s.acks == [e] && s.phase == Committed(e)
               && d in s.handed && d !in s.acked && d !in s.retired && d !in s.dropped
  {
    TwoQueues(e, d);
    assert WithAck([], e, limit) == [e] by { assert DropSource([], e.source) + [e] == [e]; }
    hide Legal, Exec, QueueOf, Flatten, WithAck, PairAcked;
    Extend(run, Post(e.message), limit);
    var posted := run + [Post(e.message)];
    Extend(posted, CommitAck, limit);
    assert posted + [CommitAck] == run + [Post(e.message), CommitAck];
  }

  /** Both are cleaned up: `e` by its own publish, `d` by the next receive of the comment. */
  lemma {:induction false} CleanUpBoth(run: seq<Step>, d: Delivery, e: Delivery, limit: Limit)
    requires Legal(run, limit) && d.source == e.source && d.digest == e.digest && d.message != e.message
    requires var s := Exec(run, limit);
             && s.queues == [Queue(e.message, [e]), Queue(d.message, [d])] && s.acks == [e] && s.phase == Committed(e)
             && d in s.handed && d !in s.acked && d !in s.retired && d !in s.dropped
    ensures var all := run + [Reconcile(e), Reconcile(d)];
            Legal(all, limit) && var s := Exec(all, limit); d in s.handed && !ExactlyAccounted(s, d) && s.queues == [] && s.acks == [e]
  {
    TwoQueues(e, d);
    OneQueue(d);
    assert PairAcked([e], d) && PairAcked([e], e) by { assert [e][0] == e; }
    assert Last([d], limit) == [d] && Flatten([]) == [];
    hide Legal, Exec, QueueOf, Flatten, Discard, WithAck, PairAcked;
    Extend(run, Reconcile(e), limit);
    var cleaned := run + [Reconcile(e)];
    Extend(cleaned, Reconcile(d), limit);
    assert cleaned + [Reconcile(d)] == run + [Reconcile(e), Reconcile(d)];
  }

  lemma {:induction false} OneQueue(d: Delivery)
    ensures var one := [Queue(d.message, [d])];
            Enqueue([], d) == one && Flatten(one) == [d] && QueueOf(one, d.message) == [d] && Discard(one, d) == []
  {
    var one := [Queue(d.message, [d])];
    assert one[1..] == [] && [d][1..] == [] && Without([d], d) == Without([], d);
  }

  /** The queues of two deliveries under different messages. */
  lemma {:induction false} TwoQueues(e: Delivery, d: Delivery)
    requires e.message != d.message
    ensures var one, two := [Queue(e.message, [e])], [Queue(e.message, [e]), Queue(d.message, [d])];
            && Enqueue([], e) == one && Enqueue(one, d) == two && Flatten(one) == [e] && Flatten(two) == [e, d]
            && QueueOf(one, d.message) == [] && QueueOf(two, e.message) == [e] && Discard(two, e) == [Queue(d.message, [d])]
  {
    var one, two := [Queue(e.message, [e])], [Queue(e.message, [e]), Queue(d.message, [d])];
    OneQueue(e);
    OneQueue(d);
    assert one[1..] == [] && two[1..] == [Queue(d.message, [d])] && [e][1..] == [] && Without([e], e) == Without([], e);
    assert Enqueue(one, d) == [one[0]] + Enqueue([], d);
  }

  /**
   In every reachable state both ledgers load again, the ack ledger has one entry per source, and a
   restart rebuilds the in-memory queues exactly when the pending ledger did not have to cut any of
   them off.
   */
  lemma {:induction false} RestartRebuilds(run: seq<Step>, limit: Limit)
    requires Legal(run, limit)
    ensures var s := Exec(run, limit);
            && LoadLedger(s.acks, limit) == Some(s.acks) && LoadLedger(s.file, limit) == Some(s.file) && UniqueSources(s.acks)
            && (Rebuild(s.file) == s.queues <==> |Flatten(s.queues)| <= limit)
  {
    hide Legal, Exec, PublishInv, CustodyInv, ValidEntry, Flatten, Rebuild, ValidQueues;
    Reachable(run, limit);
    Origins(run, limit, Remembered(run));
    RememberedAreValid(run, limit);
    var s := Exec(run, limit);
    BoundedLedger(s.queues, limit);
    assert forall i :: 0 <= i < |s.acks| ==> s.acks[i] in s.acks;
    assert forall i :: 0 <= i < |s.file| ==> s.file[i] in Flatten(s.queues);
  }

  /** Past its limit the pending ledger does lose a handed-out control: two controls, a ledger of one, a crash. */
  lemma {:induction false} LimitBreaksCustody(a: Delivery, b: Delivery)
    requires ValidEntry(a) && ValidEntry(b) && a.message != b.message
    ensures var run := [Remember(a), HandOut({a}), Remember(b), Restart];
            && Legal(run, 1)
            && var s := Exec(run, 1);
               && a in s.handed && a in s.dropped
               && a !in s.file && a !in Flatten(s.queues) && a !in s.retired && s.acked == {}
  {
    var r0: seq<Step> := [];
    var r1 := r0 + [Remember(a)];
    Extend(r0, Remember(a), 1);
    assert Exec(r1, 1).queues == [Queue(a.message, [a])];
    assert Flatten(Exec(r1, 1).queues) == [a] + Flatten([]);
    var r2 := r1 + [HandOut({a})];
    Extend(r1, HandOut({a}), 1);
    var r3 := r2 + [Remember(b)];
    assert QueueOf(Exec(r2, 1).queues, b.message) == QueueOf([], b.message);
    Extend(r2, Remember(b), 1);
    var qs := Exec(r3, 1).queues;
    assert qs == [Queue(a.message, [a])] + Enqueue([], b);
    assert qs[1..] == [Queue(b.message, [b])];
    assert qs[1..][1..] == [];
    assert Flatten(qs) == [a, b];
    assert Exec(r3, 1).file == [b];
    Extend(r3, Restart, 1);
    assert Rebuild([b]) == RebuildOnto([Queue(b.message, [b])], []);
    assert [Queue(b.message, [b])][1..] == [];
    assert r3 + [Restart] == [Remember(a), HandOut({a}), Remember(b), Restart];
  }
}
