/**
 The in-memory queue map of the delivery adapter: an insertion-ordered dictionary from
 message id to the deliveries waiting under it, and its flattened durable form.
 */
module PendingQueues {
  import opened Common

  /** A JSON object field as the adapter reads it: missing, a string, or some other value with its rendering. */
  datatype Field = Absent | Text(text: string) | NonText(rendered: string) {
    function AsText(): string {
      match this
      case Absent => ""
      case Text(t) => t
      case NonText(r) => r
    }
  }

  datatype Control = Control(messageId: Field, requestKind: Field, body: string)

  /** SHA-256 of a canonical control object, as an ideal (injective) digest. */
  datatype Digest = Sha256(control: Control)

  datatype Delivery = Delivery(source: string, message: string, digest: Digest)

  datatype Queue = Queue(message: string, items: seq<Delivery>)

  ghost predicate ValidQueue(q: Queue) {
    && q.message != ""
    && q.items != []
    && Distinct(q.items)
    && forall i :: 0 <= i < |q.items| ==> q.items[i].message == q.message
  }

  ghost predicate ValidQueues(qs: seq<Queue>) {
    && (forall i :: 0 <= i < |qs| ==> ValidQueue(qs[i]))
    && (forall i, j :: 0 <= i < j < |qs| ==> qs[i].message != qs[j].message)
  }

  /** The entries `_save_delivery_pending` writes: every queue in dictionary order. */
  function Flatten(qs: seq<Queue>): seq<Delivery> {
    if qs == [] then [] else qs[0].items + Flatten(qs[1..])
  }

  /** `self._pending.get(message, [])` */
  function QueueOf(qs: seq<Queue>, message: string): seq<Delivery> {
    if qs == [] then [] else if qs[0].message == message then qs[0].items else QueueOf(qs[1..], message)
  }

  /** `self._pending.setdefault(d.message_id, []).append(d)` */
  function Enqueue(qs: seq<Queue>, d: Delivery): seq<Queue> {
    if qs == [] then [Queue(d.message, [d])]
    else if qs[0].message == d.message then [qs[0].(items := qs[0].items + [d])] + qs[1..]
    else [qs[0]] + Enqueue(qs[1..], d)
  }

  function Without(items: seq<Delivery>, d: Delivery): seq<Delivery> {
    if items == [] then []
    else if items[0] == d then Without(items[1..], d)
    else [items[0]] + Without(items[1..], d)
  }

  /** The dictionary update of `_discard_pending`: an emptied queue loses its key. */
  function Discard(qs: seq<Queue>, d: Delivery): seq<Queue> {
    if qs == [] then []
    else if qs[0].message == d.message then
      var remaining := Without(qs[0].items, d);
      (if remaining == [] then [] else [qs[0].(items := remaining)]) + qs[1..]
    else [qs[0]] + Discard(qs[1..], d)
  }

  /** The constructor's replay of a pending ledger on top of `base`. */
  function RebuildOnto(base: seq<Queue>, ds: seq<Delivery>): seq<Queue>
    decreases |ds|
  {
    if ds == [] then base else RebuildOnto(Enqueue(base, ds[0]), ds[1..])
  }

  function Rebuild(ds: seq<Delivery>): seq<Queue> {
    RebuildOnto([], ds)
  }

  lemma {:induction false} ValidTail(qs: seq<Queue>)
    requires ValidQueues(qs) && qs != []
    ensures ValidQueue(qs[0]) && ValidQueues(qs[1..])
    ensures forall i :: 0 <= i < |qs[1..]| ==> qs[1..][i].message != qs[0].message
  {
    forall i | 0 <= i < |qs[1..]|
      ensures ValidQueue(qs[1..][i]) && qs[1..][i].message != qs[0].message
    {
      assert qs[1..][i] == qs[i + 1];
    }
  }

  lemma ValidCons(q: Queue, qs: seq<Queue>)
    requires ValidQueue(q) && ValidQueues(qs)
    requires forall i :: 0 <= i < |qs| ==> qs[i].message != q.message
    ensures ValidQueues([q] + qs)
  {}

  /** A queue holds exactly the flattened deliveries that carry its message id. */
  lemma {:induction false} QueueMembership(qs: seq<Queue>, d: Delivery)
    requires ValidQueues(qs)
    ensures d in Flatten(qs) <==> d in QueueOf(qs, d.message)
    ensures QueueOf(qs, d.message) != [] <==> exists i :: 0 <= i < |qs| && qs[i].message == d.message
  {
    if qs != [] {
      ValidTail(qs);
      QueueMembership(qs[1..], d);
      assert forall i :: 1 <= i < |qs| ==> qs[i] == qs[1..][i - 1];
    }
  }

  lemma {:induction false} QueueMessages(qs: seq<Queue>, message: string)
    requires ValidQueues(qs)
    ensures forall i :: 0 <= i < |QueueOf(qs, message)| ==> QueueOf(qs, message)[i].message == message
    ensures QueueOf(qs, message) != [] ==> message != ""
  {
    if qs != [] {
      ValidTail(qs);
      QueueMessages(qs[1..], message);
    }
  }

  /** No delivery is queued twice. */
  lemma {:induction false} FlattenDistinct(qs: seq<Queue>)
    requires ValidQueues(qs)
    ensures Distinct(Flatten(qs))
  {
    if qs != [] {
      ValidTail(qs);
      FlattenDistinct(qs[1..]);
      var first, rest := qs[0].items, Flatten(qs[1..]);
      forall i, j | 0 <= i < |first| && 0 <= j < |rest|
        ensures first[i] != rest[j]
      {
        if first[i] == rest[j] {
          assert rest[j] in rest;
          QueueMembership(qs[1..], rest[j]);
        }
      }
    }
  }

  lemma {:induction false} EnqueueOrder(qs: seq<Queue>, d: Delivery, m: string)
    requires d !in QueueOf(qs, d.message)
    ensures QueueOf(Enqueue(qs, d), m) == QueueOf(qs, m) + if m == d.message then [d] else []
  {
    if qs != [] {
      if qs[0].message == d.message {
        assert Enqueue(qs, d)[1..] == qs[1..];
      } else {
        EnqueueOrder(qs[1..], d, m);
        assert Enqueue(qs, d)[1..] == Enqueue(qs[1..], d);
      }
    }
  }

  /** Enqueuing a new delivery keeps the map well formed, adds that delivery and nothing else. */
  lemma {:induction false} EnqueueAdds(qs: seq<Queue>, d: Delivery)
    requires ValidQueues(qs) && d.message != "" && d !in QueueOf(qs, d.message)
    ensures ValidQueues(Enqueue(qs, d))
    ensures forall x :: x in Flatten(Enqueue(qs, d)) <==> x in Flatten(qs) || x == d
    ensures forall i :: 0 <= i < |Enqueue(qs, d)| ==>
              Enqueue(qs, d)[i].message == d.message || exists j :: 0 <= j < |qs| && qs[j].message == Enqueue(qs, d)[i].message
    ensures |Flatten(Enqueue(qs, d))| == |Flatten(qs)| + 1
    ensures forall m :: QueueOf(Enqueue(qs, d), m) == QueueOf(qs, m) + if m == d.message then [d] else []
  {
    forall m
      ensures QueueOf(Enqueue(qs, d), m) == QueueOf(qs, m) + if m == d.message then [d] else []
    {
      EnqueueOrder(qs, d, m);
    }
    hide QueueOf;
    if qs == [] {
      assert Enqueue(qs, d)[1..] == [];
    } else {
      ValidTail(qs);
      if qs[0].message == d.message {
        var q := qs[0].(items := qs[0].items + [d]);
        ValidCons(q, qs[1..]);
        assert Enqueue(qs, d)[1..] == qs[1..];
      } else {
        EnqueueAdds(qs[1..], d);
        var rest := Enqueue(qs[1..], d);
        assert forall j :: 0 <= j < |qs[1..]| ==> qs[1..][j] == qs[j + 1];
        ValidCons(qs[0], rest);
        assert Enqueue(qs, d)[1..] == rest;
      }
    }
  }

  lemma {:induction false} WithoutRemoves(items: seq<Delivery>, d: Delivery)
    ensures forall x :: x in Without(items, d) <==> x in items && x != d
    ensures |Without(items, d)| <= |items|
    ensures Distinct(items) ==> Distinct(Without(items, d))
  {
    if items != [] {
      WithoutRemoves(items[1..], d);
      var rest := Without(items[1..], d);
      assert items == [items[0]] + items[1..];
      if Distinct(items) {
        assert forall k :: 0 <= k < |items[1..]| ==> items[1..][k] == items[k + 1];
        assert items[0] !in items[1..];
      }
    }
  }

  lemma {:induction false} WithoutAbsent(items: seq<Delivery>, d: Delivery)
    requires d !in items
    ensures Without(items, d) == items
  {
    if items != [] {
      assert items == [items[0]] + items[1..];
      WithoutAbsent(items[1..], d);
    }
  }

  /** The others keep their order. */
  lemma {:induction false} WithoutKeepsOrder(items: seq<Delivery>, d: Delivery, i: nat)
    requires Distinct(items) && i < |items| && items[i] == d
    ensures Without(items, d) == items[..i] + items[i + 1..]
  {
    if i == 0 {
      assert forall k :: 0 <= k < |items[1..]| ==> items[1..][k] == items[k + 1];
      WithoutAbsent(items[1..], d);
    } else {
      WithoutKeepsOrder(items[1..], d, i - 1);
      assert items[1..][..i - 1] == items[1..i] && items[1..][i..] == items[i + 1..];
      assert [items[0]] + (items[1..i] + items[i + 1..]) == items[..i] + items[i + 1..];
    }
  }

  /** The queues after a discard: that of its message without the delivery, all others as they were. */
  lemma {:induction false} DiscardLeavesOthers(qs: seq<Queue>, d: Delivery, m: string)
    requires ValidQueues(qs)
    ensures QueueOf(Discard(qs, d), m) == if m == d.message then Without(QueueOf(qs, m), d) else QueueOf(qs, m)
  {
    if qs != [] {
      ValidTail(qs);
      if qs[0].message == d.message {
        QueueMembership(qs[1..], d);
        assert QueueOf(qs[1..], d.message) == [];
        if Without(qs[0].items, d) == [] {
          assert Discard(qs, d) == qs[1..];
        } else {
          assert Discard(qs, d)[1..] == qs[1..];
        }
      } else {
        DiscardLeavesOthers(qs[1..], d, m);
        assert Discard(qs, d)[1..] == Discard(qs[1..], d);
      }
    }
  }

  lemma {:induction false} DiscardMembers(qs: seq<Queue>, d: Delivery)
    requires ValidQueues(qs)
    ensures forall x :: x in Flatten(Discard(qs, d)) <==> x in Flatten(qs) && x != d
    ensures |Flatten(Discard(qs, d))| <= |Flatten(qs)|
  {
    if qs != [] {
      ValidTail(qs);
      if qs[0].message == d.message {
        hide Without, ValidQueues;
        WithoutRemoves(qs[0].items, d);
        QueueMembership(qs[1..], d);
        var remaining := Without(qs[0].items, d);
        assert d !in Flatten(qs[1..]);
        if remaining == [] {
          assert Discard(qs, d) == qs[1..];
        } else {
          assert Discard(qs, d)[1..] == qs[1..];
        }
      } else {
        hide Without, ValidQueues;
        DiscardMembers(qs[1..], d);
        assert Discard(qs, d)[1..] == Discard(qs[1..], d);
        assert d !in qs[0].items;
      }
    }
  }

  /** Where a queue that is left comes from. */
  lemma {:induction false} DiscardOrigin(qs: seq<Queue>, d: Delivery, i: nat) returns (j: nat)
    requires i < |Discard(qs, d)|
    ensures j < |qs| && qs[j].message == Discard(qs, d)[i].message
  {
    hide Without;
    if qs[0].message == d.message {
      j := if |Discard(qs, d)| == |qs| then i else i + 1;
    } else if i == 0 {
      j := 0;
    } else {
      j := DiscardOrigin(qs[1..], d, i - 1);
      j := j + 1;
    }
  }

  lemma {:induction false} DiscardValid(qs: seq<Queue>, d: Delivery)
    requires ValidQueues(qs)
    ensures ValidQueues(Discard(qs, d))
  {
    if qs != [] {
      ValidTail(qs);
      hide ValidQueues, Without;
      if qs[0].message == d.message {
        WithoutRemoves(qs[0].items, d);
        var remaining := Without(qs[0].items, d);
        if remaining == [] {
          assert Discard(qs, d) == qs[1..];
        } else {
          assert forall i :: 0 <= i < |remaining| ==> remaining[i] in qs[0].items;
          ValidCons(qs[0].(items := remaining), qs[1..]);
        }
      } else {
        DiscardValid(qs[1..], d);
        var rest := Discard(qs[1..], d);
        forall i | 0 <= i < |rest|
          ensures rest[i].message != qs[0].message
        {
          var j := DiscardOrigin(qs[1..], d, i);
        }
        ValidCons(qs[0], rest);
      }
    }
  }

  /** Discarding keeps the map well formed and removes exactly that delivery. */
  lemma {:induction false} DiscardRemoves(qs: seq<Queue>, d: Delivery)
    requires ValidQueues(qs)
    ensures ValidQueues(Discard(qs, d))
    ensures forall x :: x in Flatten(Discard(qs, d)) <==> x in Flatten(qs) && x != d
    ensures |Flatten(Discard(qs, d))| <= |Flatten(qs)|
    ensures forall i :: 0 <= i < |Discard(qs, d)| ==> exists j :: 0 <= j < |qs| && qs[j].message == Discard(qs, d)[i].message
  {
    hide Flatten, Without, ValidQueues;
    DiscardValid(qs, d);
    DiscardMembers(qs, d);
    var left := Discard(qs, d);
    forall i | 0 <= i < |left|
      ensures exists j :: 0 <= j < |qs| && qs[j].message == left[i].message
    {
      var j := DiscardOrigin(qs, d, i);
    }
  }

  /** Discarding the head of a queue brings up the next delivery of that message. */
  lemma {:induction false} DiscardHead(qs: seq<Queue>, d: Delivery)
    requires ValidQueues(qs) && QueueOf(qs, d.message) != [] && QueueOf(qs, d.message)[0] == d
    ensures forall m :: QueueOf(Discard(qs, d), m) == if m == d.message then QueueOf(qs, m)[1..] else QueueOf(qs, m)
  {
    hide ValidQueues, Discard;
    forall m
      ensures QueueOf(Discard(qs, d), m) == if m == d.message then QueueOf(qs, m)[1..] else QueueOf(qs, m)
    {
      DiscardLeavesOthers(qs, d, m);
      QueueDistinct(qs, d.message);
      WithoutKeepsOrder(QueueOf(qs, d.message), d, 0);
    }
  }

  lemma {:induction false} QueueDistinct(qs: seq<Queue>, message: string)
    requires ValidQueues(qs)
    ensures Distinct(QueueOf(qs, message))
  {
    if qs != [] {
      ValidTail(qs);
      QueueDistinct(qs[1..], message);
    }
  }

  lemma {:induction false} EnqueueAtEnd(base: seq<Queue>, q: Queue, d: Delivery)
    requires q.message == d.message
    requires forall i :: 0 <= i < |base| ==> base[i].message != d.message
    ensures Enqueue(base + [q], d) == base + [q.(items := q.items + [d])]
    ensures Enqueue(base, d) == base + [Queue(d.message, [d])]
  {
    if base != [] {
      assert (base + [q])[1..] == base[1..] + [q];
      EnqueueAtEnd(base[1..], q, d);
    }
  }

  /** Replaying one queue's tail and then the rest of the ledger. */
  lemma {:induction false} RebuildQueue(base: seq<Queue>, q: Queue, more: seq<Delivery>, rest: seq<Delivery>)
    requires forall i :: 0 <= i < |base| ==> base[i].message != q.message
    requires forall i :: 0 <= i < |more| ==> more[i].message == q.message
    ensures RebuildOnto(base + [q], more + rest) == RebuildOnto(base + [q.(items := q.items + more)], rest)
    decreases |more|
  {
    if more == [] {
      assert more + rest == rest && q.items + more == q.items;
    } else {
      var q' := q.(items := q.items + [more[0]]);
      EnqueueAtEnd(base, q, more[0]);
      assert (more + rest)[1..] == more[1..] + rest;
      assert q'.items + more[1..] == q.items + more;
      RebuildQueue(base, q', more[1..], rest);
    }
  }

  lemma {:induction false} RebuildWholeQueue(base: seq<Queue>, q: Queue, rest: seq<Delivery>)
    requires ValidQueue(q)
    requires forall i :: 0 <= i < |base| ==> base[i].message != q.message
    ensures RebuildOnto(base, q.items + rest) == RebuildOnto(base + [q], rest)
  {
    var first := Queue(q.message, [q.items[0]]);
    EnqueueAtEnd(base, first, q.items[0]);
    assert (q.items + rest)[1..] == q.items[1..] + rest;
    RebuildQueue(base, first, q.items[1..], rest);
    assert first.items + q.items[1..] == q.items;
  }

  lemma {:induction false} RebuildAppends(base: seq<Queue>, qs: seq<Queue>)
    requires ValidQueues(qs)
    requires forall i, j :: 0 <= i < |base| && 0 <= j < |qs| ==> base[i].message != qs[j].message
    ensures RebuildOnto(base, Flatten(qs)) == base + qs
    decreases |qs|
  {
    if qs != [] {
      ValidTail(qs);
      RebuildWholeQueue(base, qs[0], Flatten(qs[1..]));
      assert forall j :: 0 <= j < |qs[1..]| ==> qs[1..][j] == qs[j + 1];
      RebuildAppends(base + [qs[0]], qs[1..]);
      assert base + [qs[0]] + qs[1..] == base + qs;
    }
  }

  /** Restart round trip: replaying a flushed ledger gives back the very same ordered queues. */
  lemma {:induction false} RebuildFlatten(qs: seq<Queue>)
    requires ValidQueues(qs)
    ensures Rebuild(Flatten(qs)) == qs
  {
    assert [] + qs == qs;
    RebuildAppends([], qs);
  }

  /** The queues that remain when the first `n` flattened deliveries are cut off. */
  ghost function DropFront(qs: seq<Queue>, n: nat): seq<Queue>
    requires n <= |Flatten(qs)|
  {
    if qs == [] || n == 0 then qs
    else if n < |qs[0].items| then [qs[0].(items := qs[0].items[n..])] + qs[1..]
    else DropFront(qs[1..], n - |qs[0].items|)
  }

  lemma {:induction false} DropFrontFlatten(qs: seq<Queue>, n: nat)
    requires ValidQueues(qs) && n <= |Flatten(qs)|
    ensures ValidQueues(DropFront(qs, n))
    ensures Flatten(DropFront(qs, n)) == Flatten(qs)[n..]
  {
    if qs != [] && n != 0 {
      ValidTail(qs);
      if n < |qs[0].items| {
        var q := qs[0].(items := qs[0].items[n..]);
        ValidCons(q, qs[1..]);
        assert DropFront(qs, n)[1..] == qs[1..];
      } else {
        DropFrontFlatten(qs[1..], n - |qs[0].items|);
      }
    }
  }

  /** A bounded ledger is itself the flattening of well-formed queues, so a restart reproduces it. */
  lemma {:induction false} BoundedLedger(qs: seq<Queue>, limit: nat)
    requires ValidQueues(qs)
    ensures ValidQueues(Rebuild(Last(Flatten(qs), limit)))
    ensures Flatten(Rebuild(Last(Flatten(qs), limit))) == Last(Flatten(qs), limit)
    ensures Rebuild(Last(Flatten(qs), limit)) == qs <==> |Flatten(qs)| <= limit
  {
    var flat := Flatten(qs);
    var kept := Last(flat, limit);
    if |flat| <= limit {
      RebuildFlatten(qs);
    } else {
      var cut := DropFront(qs, |flat| - limit);
      DropFrontFlatten(qs, |flat| - limit);
      assert Flatten(cut) == kept;
      RebuildFlatten(cut);
      assert Rebuild(kept) == cut && |Flatten(cut)| == limit;
    }
  }
}
