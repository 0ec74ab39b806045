/**
 The GitHub control adapter: receive, publish, re-arm and retire over two durable ledgers.

 Every method performs a legal run of the durable steps of `DeliveryRuns`; the ghost field `run`
 records it, so the results about all runs hold of every adapter object at every moment.
 */
module DeliveryAdapter {
  import opened Common
  import opened PendingQueues
  import opened DeliveryRuns

  datatype Config = Config(
    repositoryId: int, channel: string, actors: set<string>, maxCommentBytes: nat, pollLimit: nat, ackLimit: Limit,
    startAfter: nat)

  /** An object that holds a lone surrogate parses, but its canonical text has no UTF-8 form. */
  datatype Payload = NotJson | NotObject | Object(control: Control) | Unencodable(requestKind: Field)

  /** A comment body by its prefix; control bodies carry their UTF-8 size, None without a UTF-8 form, and payload. */
  datatype Body = NotText | ResultBody | OtherBody | ControlBody(size: Option<nat>, payload: Payload)

  /** `id` is None unless it is a JSON integer; a missing actor or timestamp reads as "". */
  datatype Comment = Comment(body: Body, id: Option<int>, actor: string, createdAt: string)

  datatype Envelope = Envelope(repositoryId: int, channel: string, actor: string, source: string, content: Control, receivedAt: string)

  datatype Reason =
    | SourceNotAllowed | IdentityInvalid | TooLarge | ActorNotAllowed | TimestampMissing | PayloadNotJson
    | PayloadNotObject | SecretLike | ProjectionTooLarge | PublishFailed | IdentityRequired | DigestInvalid
    | EvidenceRequired | PendingNotFound | NotEncodable

  /** What the receive loop does with one comment; `Raises` leaves the loop with the encoder's exception. */
  datatype Verdict = Skip | Reject(reason: Reason) | Raises | AlreadyAcked(source: string, control: Control) | Deliver(env: Envelope)

  function Decimal(n: nat): string {
    if n < 10 then [['0', '1', '2', '3', '4', '5', '6', '7', '8', '9'][n]]
    else Decimal(n / 10) + Decimal(n % 10)
  }

  /** Reference: the number a decimal text stands for, read digit by digit. */
  function Reads(s: string): int {
    if s == "" then 0 else 10 * Reads(s[..|s| - 1]) + (s[|s| - 1] as int - '0' as int)
  }

  /** `str(n)`: the digits of `n` without leading zeros. */
  lemma {:induction false} DecimalReads(n: nat)
    ensures Decimal(n) != "" && Reads(Decimal(n)) == n
    ensures forall i :: 0 <= i < |Decimal(n)| ==> '0' <= Decimal(n)[i] <= '9'
    ensures Decimal(n)[0] == '0' ==> n == 0
  {
    if n >= 10 {
      DecimalReads(n / 10);
      DecimalReads(n % 10);
      var init, last := Decimal(n / 10), Decimal(n % 10);
      assert (init + last)[..|init + last| - 1] == init;
    } else {
      assert Decimal(n)[..0] == "";
    }
  }

  /** Different comments have different source ids. */
  lemma {:induction false} DecimalInjective(m: nat, n: nat)
    ensures Decimal(m) == Decimal(n) <==> m == n
  {
    DecimalReads(m);
    DecimalReads(n);
  }

  /** The fingerprint of a control received from comment `source`: it carries the message id of its content. */
  function Fingerprint(source: string, control: Control): (d: Delivery)
    ensures CarriesOwnMessage(d) && d.source == source
  {
    Delivery(source, control.messageId.AsText(), Sha256(control))
  }

  /** The receive loop's checks, in its order. */
  function Classify(config: Config, kind: Option<string>, acks: seq<Delivery>, c: Comment): Verdict {
    match c.body
    case NotText => Skip
    case ResultBody => Skip
    case OtherBody => Skip
    case ControlBody(size, payload) =>
      if config.startAfter > 0 && (c.id.None? || c.id.value <= 0) then Reject(IdentityInvalid)
      else if config.startAfter > 0 && c.id.value <= config.startAfter then Skip
      else if size.None? then Raises
      else if size.value > config.maxCommentBytes then Reject(TooLarge)
      else if c.actor !in config.actors then Reject(ActorNotAllowed)
      else if c.id.None? || c.id.value <= 0 then Reject(IdentityInvalid)
      else if c.createdAt == "" then Reject(TimestampMissing)
      else
        match payload
        case NotJson => Reject(PayloadNotJson)
        case NotObject => Reject(PayloadNotObject)
        case Unencodable(requestKind) => if kind.Some? && requestKind.AsText() != kind.value then Skip else Raises
        case Object(control) =>
          var source := Decimal(c.id.value);
          if kind.Some? && control.requestKind.AsText() != kind.value then Skip
          else if PairAcked(acks, Fingerprint(source, control)) then AlreadyAcked(source, control)
          else Deliver(Envelope(config.repositoryId, config.channel, c.actor, source, control, c.createdAt))
  }

  /**
   What a comment has to be to be handed out: a control body within the size limit, from a listed
   actor, with an id above the configured start, a timestamp, an object of the asked kind, and no
   ack for this comment and this content.
   */
  predicate Passes(config: Config, kind: Option<string>, acks: seq<Delivery>, c: Comment) {
    && c.body.ControlBody? && c.body.size.Some? && c.body.size.value <= config.maxCommentBytes
    && c.actor in config.actors
    && c.id.Some? && c.id.value > config.startAfter
    && c.createdAt != ""
    && c.body.payload.Object?
    && (kind.None? || c.body.payload.control.requestKind.AsText() == kind.value)
    && forall i :: 0 <= i < |acks| && acks[i].source == Decimal(c.id.value) ==> acks[i].digest != Sha256(c.body.payload.control)
  }

  /** Every verdict of the loop in terms of the comment: delivered, suppressed, rejected with which reason, or raising. */
  lemma {:induction false} VerdictExactly(config: Config, kind: Option<string>, acks: seq<Delivery>, c: Comment)
    ensures Classify(config, kind, acks, c).Deliver? <==> Passes(config, kind, acks, c)
    ensures Passes(config, kind, acks, c) ==>
              var env := Classify(config, kind, acks, c).env;
              && env.repositoryId == config.repositoryId && env.channel == config.channel && env.actor == c.actor
              && env.source == Decimal(c.id.value) && env.content == c.body.payload.control && env.receivedAt == c.createdAt
    ensures var v, known := Classify(config, kind, acks, c), c.id.Some? && c.id.value > 0;
            var seen := c.body.ControlBody? && (config.startAfter > 0 ==> known && c.id.value > config.startAfter);
            var sized := seen && c.body.size.Some? && c.body.size.value <= config.maxCommentBytes;
            var identified := sized && c.actor in config.actors && known;
            var whole := identified && c.createdAt != "";
            && (v == Reject(TooLarge) <==> seen && c.body.size.Some? && c.body.size.value > config.maxCommentBytes)
            && (v == Reject(ActorNotAllowed) <==> sized && c.actor !in config.actors)
            && (v == Reject(IdentityInvalid) <==> c.body.ControlBody? && !known && (config.startAfter > 0 || (sized && c.actor in config.actors)))
            && (v == Reject(TimestampMissing) <==> identified && c.createdAt == "")
            && (v == Reject(PayloadNotJson) <==> whole && c.body.payload.NotJson?)
            && (v == Reject(PayloadNotObject) <==> whole && c.body.payload.NotObject?)
            && (v.Reject? ==> v.reason in {TooLarge, ActorNotAllowed, IdentityInvalid, TimestampMissing, PayloadNotJson, PayloadNotObject})
            && (v.Raises? <==> || (seen && c.body.size.None?)
                               || (whole && c.body.payload.Unencodable? && (kind.None? || c.body.payload.requestKind.AsText() == kind.value)))
            && (v.AlreadyAcked? <==> Passes(config, kind, [], c) && !Passes(config, kind, acks, c))
            && (v.AlreadyAcked? ==> v.source == Decimal(c.id.value) && v.control == c.body.payload.control)
  {
    hide Decimal;
  }

  /** The envelope of a passing comment. */
  function EnvelopeOf(config: Config, c: Comment): Envelope
    requires c.body.ControlBody? && c.body.payload.Object? && c.id.Some? && c.id.value >= 0
  {
    Envelope(config.repositoryId, config.channel, c.actor, Decimal(c.id.value), c.body.payload.control, c.createdAt)
  }

  /** Reference: the envelopes of the passing comments, in comment order. */
  function Passing(config: Config, kind: Option<string>, acks: seq<Delivery>, comments: seq<Comment>): seq<Envelope> {
    if comments == [] then []
    else (if Passes(config, kind, acks, comments[0]) then [EnvelopeOf(config, comments[0])] else []) + Passing(config, kind, acks, comments[1..])
  }

  lemma {:induction false} DeliverableIsPassing(config: Config, kind: Option<string>, acks: seq<Delivery>, comments: seq<Comment>)
    ensures Deliverable(Verdicts(config, kind, acks, comments)) == Passing(config, kind, acks, comments)
  {
    hide Classify, Passes, Decimal;
    if comments != [] {
      var vs := Verdicts(config, kind, acks, comments);
      VerdictExactly(config, kind, acks, comments[0]);
      assert vs[1..] == Verdicts(config, kind, acks, comments[1..]);
      DeliverableIsPassing(config, kind, acks, comments[1..]);
    }
  }

  /** The fingerprint remembered for a delivered control: only string, non-empty message ids are tracked. */
  predicate Tracked(control: Control) {
    control.messageId.Text? && control.messageId.text != ""
  }

  /** What the checks say about each comment, in comment order. */
  function Verdicts(config: Config, kind: Option<string>, acks: seq<Delivery>, comments: seq<Comment>): (vs: seq<Verdict>)
    ensures |vs| == |comments|
  {
    seq(|comments|, i requires 0 <= i < |comments| => Classify(config, kind, acks, comments[i]))
  }

  /** Reference: the deliverable envelopes, in order. */
  function Deliverable(vs: seq<Verdict>): seq<Envelope> {
    if vs == [] then [] else if vs[0].Deliver? then [vs[0].env] + Deliverable(vs[1..]) else Deliverable(vs[1..])
  }

  /** Reference: the reason of the first rejected comment. */
  function FirstRejection(vs: seq<Verdict>): Option<Reason> {
    if vs == [] then None else if vs[0].Reject? then Some(vs[0].reason) else FirstRejection(vs[1..])
  }

  lemma {:induction false} DeliverableAppend(a: seq<Verdict>, b: seq<Verdict>)
    ensures Deliverable(a + b) == Deliverable(a) + Deliverable(b)
    ensures FirstRejection(a + b) == if FirstRejection(a).Some? then FirstRejection(a) else FirstRejection(b)
  {
    if a == [] {
      assert a + b == b;
    } else {
      DeliverableAppend(a[1..], b);
      assert (a + b)[1..] == a[1..] + b;
    }
  }

  lemma {:induction false} DeliverableOne(vs: seq<Verdict>, i: nat)
    requires i < |vs|
    ensures Deliverable(vs[..i + 1]) == Deliverable(vs[..i]) + if vs[i].Deliver? then [vs[i].env] else []
    ensures FirstRejection(vs[..i + 1]) ==
            if FirstRejection(vs[..i]).Some? then FirstRejection(vs[..i])
            else if vs[i].Reject? then Some(vs[i].reason) else None
  {
    var one := [vs[i]];
    assert vs[..i + 1] == vs[..i] + one;
    DeliverableAppend(vs[..i], one);
    assert one[1..] == [];
    assert Deliverable(one) == if one[0].Deliver? then [one[0].env] + Deliverable(one[1..]) else Deliverable(one[1..]);
    assert FirstRejection(one) == if one[0].Reject? then Some(one[0].reason) else FirstRejection(one[1..]);
  }

  function Min(a: int, b: int): int { if a < b then a else b }

  /** The comments in front of the first one that raises. */
  function Readable(vs: seq<Verdict>): (read: seq<Verdict>)
    ensures read <= vs && (forall i :: 0 <= i < |read| ==> !read[i].Raises?)
    ensures |read| < |vs| ==> vs[|read|].Raises?
  {
    if vs == [] || vs[0].Raises? then [] else [vs[0]] + Readable(vs[1..])
  }

  /** What receive is for: the first `n` deliverable envelopes, else the first rejection, else nothing. */
  function FirstDeliverable(vs: seq<Verdict>, n: int): Result<seq<Envelope>, Reason> {
    var all := Deliverable(vs);
    if n <= 0 then Ok([])
    else if all != [] then Ok(all[..Min(n, |all|)])
    else if FirstRejection(vs).Some? then Err(FirstRejection(vs).value)
    else Ok([])
  }

  /** What receive does: it raises when it meets an unencodable comment before `n` envelopes are collected. */
  function Received(vs: seq<Verdict>, n: int): Result<seq<Envelope>, Reason> {
    if 0 < n && |Readable(vs)| < |vs| && |Deliverable(Readable(vs))| < n then Err(NotEncodable)
    else FirstDeliverable(Readable(vs), n)
  }

  /**
   Receive returns exactly the first `n` passing comments, or the first rejection when no comment
   passes, if and only if no unencodable comment is met before `n` envelopes are collected;
   otherwise it raises.
   */
  lemma {:induction false} ReceivedExactly(config: Config, kind: Option<string>, acks: seq<Delivery>, comments: seq<Comment>, n: nat)
    requires 0 < n
    ensures var vs := Verdicts(config, kind, acks, comments);
            && (Received(vs, n) == FirstDeliverable(vs, n) <==> |Readable(vs)| == |vs| || |Deliverable(Readable(vs))| >= n)
            && (Received(vs, n) != FirstDeliverable(vs, n) ==> Received(vs, n) == Err(NotEncodable))
  {
    hide Classify, Deliverable, FirstRejection;
    var vs := Verdicts(config, kind, acks, comments);
    var read := Readable(vs);
    forall i | 0 <= i < |vs|
      ensures vs[i] != Reject(NotEncodable)
    {
      NeverRejectsAsUnencodable(config, kind, acks, comments[i]);
    }
    RejectionIsFirst(vs);
    assert vs == read + vs[|read|..];
    DeliverableAppend(read, vs[|read|..]);
    assert |read| == |vs| ==> read == vs;
    if |Deliverable(read)| >= n {
      assert Deliverable(vs)[..n] == Deliverable(read)[..n];
    }
  }

  /**
   That reference in terms of the comments: the first `n` passing ones in order; without any, the
   reason of the first rejected comment, or nothing when none is rejected.
   */
  lemma {:induction false} FirstPassing(config: Config, kind: Option<string>, acks: seq<Delivery>, comments: seq<Comment>, n: nat)
    requires 0 < n
    ensures var all, first := Passing(config, kind, acks, comments), FirstDeliverable(Verdicts(config, kind, acks, comments), n);
            && (all != [] ==> first == Ok(all[..Min(n, |all|)]))
            && (all == [] && (forall i :: 0 <= i < |comments| ==> !Classify(config, kind, acks, comments[i]).Reject?) ==> first == Ok([]))
            && (forall i :: 0 <= i < |comments| && all == [] && FirstRejected(config, kind, acks, comments, i) ==>
                  first == Err(Classify(config, kind, acks, comments[i]).reason))
  {
    hide Classify, Deliverable, FirstRejection, Passing;
    DeliverableIsPassing(config, kind, acks, comments);
    var vs := Verdicts(config, kind, acks, comments);
    RejectionIsFirst(vs);
    assert forall i :: 0 <= i < |comments| ==> vs[i] == Classify(config, kind, acks, comments[i]);
    forall i | 0 <= i < |comments| && FirstRejected(config, kind, acks, comments, i)
      ensures FirstRejection(vs) == Some(vs[i].reason)
    {
      assert forall k :: 0 <= k < i ==> !vs[k].Reject?;
      var j :| 0 <= j < |vs| && vs[j] == Reject(FirstRejection(vs).value) && forall k :: 0 <= k < j ==> !vs[k].Reject?;
      assert i == j;
    }
  }

  lemma NeverRejectsAsUnencodable(config: Config, kind: Option<string>, acks: seq<Delivery>, c: Comment)
    ensures Classify(config, kind, acks, c) != Reject(NotEncodable)
  {}

  /** Comment `i` is the first one rejected. */
  ghost predicate FirstRejected(config: Config, kind: Option<string>, acks: seq<Delivery>, comments: seq<Comment>, i: nat)
    requires i < |comments|
  {
    Classify(config, kind, acks, comments[i]).Reject? && forall k :: 0 <= k < i ==> !Classify(config, kind, acks, comments[k]).Reject?
  }

  lemma {:induction false} RejectionIsFirst(vs: seq<Verdict>)
    ensures FirstRejection(vs).None? <==> forall i :: 0 <= i < |vs| ==> !vs[i].Reject?
    ensures FirstRejection(vs).Some? ==> exists i :: 0 <= i < |vs| && vs[i] == Reject(FirstRejection(vs).value) && forall k :: 0 <= k < i ==> !vs[k].Reject?
  {
    if vs != [] && !vs[0].Reject? {
      RejectionIsFirst(vs[1..]);
      assert forall i :: 1 <= i < |vs| ==> vs[i] == vs[1..][i - 1];
      if FirstRejection(vs).Some? {
        var i :| 0 <= i < |vs[1..]| && vs[1..][i] == Reject(FirstRejection(vs).value) && forall k :: 0 <= k < i ==> !vs[1..][k].Reject?;
        assert vs[i + 1] == Reject(FirstRejection(vs).value);
        assert forall k :: 1 <= k < i + 1 ==> vs[k] == vs[1..][k - 1];
      }
    }
  }

  /** The property does fail: behind a deliverable comment, the same comment with a lone surrogate in its payload. */
  lemma {:induction false} SurrogateHidesDeliverable(config: Config, kind: Option<string>, acks: seq<Delivery>, c: Comment)
    requires Classify(config, kind, acks, c).Deliver?
    ensures var bad := c.(body := c.body.(payload := Unencodable(c.body.payload.control.requestKind)));
            var vs := Verdicts(config, kind, acks, [c, bad]);
            Received(vs, 2) == Err(NotEncodable) && FirstDeliverable(vs, 2) == Ok([Classify(config, kind, acks, c).env])
  {
    var bad := c.(body := c.body.(payload := Unencodable(c.body.payload.control.requestKind)));
    var env, vs := Classify(config, kind, acks, c).env, Verdicts(config, kind, acks, [c, bad]);
    assert vs == [Deliver(env), Raises];
    hide Classify, Verdicts;
    assert vs[1..] == [Raises] && vs[1..][1..] == [];
    assert Deliverable(vs[1..]) == Deliverable([]) == [];
    assert Readable(vs) == [Deliver(env)] + Readable(vs[1..]) == [Deliver(env)];
    assert [Deliver(env)][1..] == [];
    assert Deliverable([Deliver(env)]) == [env] + Deliverable([]);
  }

  lemma NothingReceived(vs: seq<Verdict>, n: int)
    requires n <= 0
    ensures Received(vs, n) == Ok([])
  {}

  /** Where the loop stops without raising, what it has collected is the outcome. */
  lemma {:induction false} ReceivedAt(vs: seq<Verdict>, i: nat, n: nat)
    requires i <= |vs| && 0 < n && |Deliverable(vs[..i])| <= n && (forall k :: 0 <= k < i ==> !vs[k].Raises?)
    requires i == |vs| || |Deliverable(vs[..i])| == n
    ensures Received(vs, n) ==
            if Deliverable(vs[..i]) != [] then Ok(Deliverable(vs[..i]))
            else if FirstRejection(vs[..i]).Some? then Err(FirstRejection(vs[..i]).value)
            else Ok([])
  {
    hide Deliverable, FirstRejection;
    var read := Readable(vs);
    assert i <= |read|;
    DeliverableAppend(vs[..i], read[i..]);
    assert vs[..i] + read[i..] == read;
    assert i == |vs| ==> vs[..i] == vs == read;
    assert Deliverable(read)[..Min(n, |Deliverable(read)|)] == Deliverable(vs[..i]);
  }

  /** Where it raises, fewer than `n` envelopes stand in front of the first unencodable comment. */
  lemma {:induction false} RaisedAt(vs: seq<Verdict>, i: nat, n: nat)
    requires i < |vs| && vs[i].Raises? && (forall k :: 0 <= k < i ==> !vs[k].Raises?) && |Deliverable(vs[..i])| < n
    ensures Received(vs, n) == Err(NotEncodable)
  {
    hide Deliverable;
    assert Readable(vs) == vs[..i];
  }

  /** The fingerprints remembered for one delivered envelope: at most one. */
  ghost function FingerprintsOf(env: Envelope): set<Delivery> {
    if Tracked(env.content) then {Fingerprint(env.source, env.content)} else {}
  }

  ghost function TrackedIn(envs: seq<Envelope>): set<Delivery> {
    set i, d | 0 <= i < |envs| && d in FingerprintsOf(envs[i]) :: d
  }

  lemma {:induction false} TrackedAre(envs: seq<Envelope>)
    ensures forall k :: 0 <= k < |envs| && envs[k].content.messageId.Text? && envs[k].content.messageId.text != "" ==>
              Delivery(envs[k].source, envs[k].content.messageId.text, Sha256(envs[k].content)) in TrackedIn(envs)
  {
    forall k | 0 <= k < |envs| && envs[k].content.messageId.Text? && envs[k].content.messageId.text != ""
      ensures Delivery(envs[k].source, envs[k].content.messageId.text, Sha256(envs[k].content)) in TrackedIn(envs)
    {
      assert Fingerprint(envs[k].source, envs[k].content) in FingerprintsOf(envs[k]);
    }
  }

  lemma {:induction false} HandedOut(run: seq<Step>, ds: set<Delivery>, limit: Limit)
    requires Legal(run, limit) && Enabled(Exec(run, limit), HandOut(ds))
    ensures Legal(run + [HandOut(ds)], limit)
    ensures Exec(run + [HandOut(ds)], limit) == Exec(run, limit).(handed := Exec(run, limit).handed + ds)
  {
    hide Legal, Exec;
    Extend(run, HandOut(ds), limit);
  }

  lemma {:induction false} TrackedInAppend(envs: seq<Envelope>, env: Envelope)
    ensures TrackedIn(envs + [env]) == TrackedIn(envs) + FingerprintsOf(env)
  {
    var all := envs + [env];
    forall d | d in TrackedIn(envs) + FingerprintsOf(env)
      ensures d in TrackedIn(all)
    {
      if d in FingerprintsOf(env) {
        assert all[|envs|] == env;
      } else {
        var i :| 0 <= i < |envs| && d in FingerprintsOf(envs[i]);
        assert all[i] == envs[i];
      }
    }
  }

  /** The queues after one comment: an acknowledged fingerprint is cleaned up, a new tracked one is remembered. */
  function Handled(qs: seq<Queue>, v: Verdict): seq<Queue> {
    match v
    case AlreadyAcked(source, control) =>
      var d := Fingerprint(source, control);
      if d in QueueOf(qs, d.message) then Discard(qs, d) else qs
    case Deliver(env) =>
      var d := Fingerprint(env.source, env.content);
      if Tracked(env.content) && d !in QueueOf(qs, d.message) then Enqueue(qs, d) else qs
    case _ => qs
  }

  function HandledAll(qs: seq<Queue>, vs: seq<Verdict>): seq<Queue> {
    if vs == [] then qs else Handled(HandledAll(qs, vs[..|vs| - 1]), vs[|vs| - 1])
  }

  lemma {:induction false} ClassifyAcks(config: Config, kind: Option<string>, acks: seq<Delivery>, c: Comment)
    ensures var v := Classify(config, kind, acks, c);
            && (v.AlreadyAcked? ==> PairAcked(acks, Fingerprint(v.source, v.control)))
            && (v.Deliver? ==> !PairAcked(acks, Fingerprint(v.env.source, v.env.content)) && v.env.source != "")
  {
    if c.id.Some? && c.id.value > 0 { DecimalReads(c.id.value); }
  }

  /** A comment among these was suppressed by the ack of `d`'s source and content, and carries `d`'s message id. */
  ghost predicate Suppressed(vs: seq<Verdict>, d: Delivery) {
    exists k :: 0 <= k < |vs| && vs[k].AlreadyAcked? && d == Delivery(vs[k].source, vs[k].control.messageId.AsText(), Sha256(vs[k].control))
  }

  /** A comment among these was delivered with a string, non-empty message id, and `d` is its fingerprint. */
  ghost predicate HandsOver(vs: seq<Verdict>, d: Delivery) {
    exists k :: 0 <= k < |vs| && vs[k].Deliver? && vs[k].env.content.messageId == Text(d.message) && d.message != ""
                && d.source == vs[k].env.source && d.digest == Sha256(vs[k].env.content)
  }

  lemma {:induction false} OneMoreVerdict(vs: seq<Verdict>, i: nat, d: Delivery)
    requires i < |vs|
    ensures Suppressed(vs[..i + 1], d) <==> Suppressed(vs[..i], d) || Suppressed([vs[i]], d)
    ensures HandsOver(vs[..i + 1], d) <==> HandsOver(vs[..i], d) || HandsOver([vs[i]], d)
  {
    assert forall k :: 0 <= k < i ==> vs[..i + 1][k] == vs[..i][k];
    assert vs[..i + 1][i] == [vs[i]][0];
    if Suppressed(vs[..i], d) {
      var k :| 0 <= k < i && vs[..i][k].AlreadyAcked? && d == Delivery(vs[..i][k].source, vs[..i][k].control.messageId.AsText(), Sha256(vs[..i][k].control));
      assert vs[..i + 1][k] == vs[..i][k];
    }
    if HandsOver(vs[..i], d) {
      var k :| 0 <= k < i && vs[..i][k].Deliver? && vs[..i][k].env.content.messageId == Text(d.message) && d.message != ""
               && d.source == vs[..i][k].env.source && d.digest == Sha256(vs[..i][k].env.content);
      assert vs[..i + 1][k] == vs[..i][k];
    }
  }

  /** One comment removes or adds at most its own fingerprint. */
  lemma {:induction false} HandledOne(qs: seq<Queue>, v: Verdict)
    requires ValidQueues(qs)
    ensures ValidQueues(Handled(qs, v))
    ensures forall d :: d in Flatten(Handled(qs, v)) <==> HandsOver([v], d) || (d in Flatten(qs) && !Suppressed([v], d))
  {
    hide ValidQueues, Enqueue, Discard, Flatten;
    assert [v][0] == v;
    match v
    case AlreadyAcked(source, control) =>
      var x := Fingerprint(source, control);
      QueueMembership(qs, x);
      DiscardRemoves(qs, x);
    case Deliver(env) =>
      if Tracked(env.content) {
        var x := Fingerprint(env.source, env.content);
        QueueMembership(qs, x);
        if x !in QueueOf(qs, x.message) { EnqueueAdds(qs, x); }
      }
    case Skip =>
    case Reject(_) =>
    case Raises =>
  }

  /**
   The pending deliveries after a scan: those handed over by it, and of the earlier ones exactly
   those that no suppressed comment of the scan was acknowledged for.
   */
  lemma {:induction false} LedgerAfterScan(config: Config, kind: Option<string>, acks: seq<Delivery>, comments: seq<Comment>, qs: seq<Queue>, i: nat)
    requires ValidQueues(qs) && i <= |comments|
    ensures var scan := Verdicts(config, kind, acks, comments)[..i];
            && ValidQueues(HandledAll(qs, scan))
            && forall d :: d in Flatten(HandledAll(qs, scan)) <==> HandsOver(scan, d) || (d in Flatten(qs) && !Suppressed(scan, d))
    decreases i
  {
    hide Classify, ValidQueues, Handled, Flatten, PairAcked;
    var vs := Verdicts(config, kind, acks, comments);
    if i > 0 {
      LedgerAfterScan(config, kind, acks, comments, qs, i - 1);
      var before, v := HandledAll(qs, vs[..i - 1]), vs[i - 1];
      assert vs[..i][..i - 1] == vs[..i - 1];
      assert HandledAll(qs, vs[..i]) == Handled(before, v);
      HandledOne(before, v);
      forall d
        ensures d in Flatten(HandledAll(qs, vs[..i])) <==> HandsOver(vs[..i], d) || (d in Flatten(qs) && !Suppressed(vs[..i], d))
      {
        OneMoreVerdict(vs, i - 1, d);
        if Suppressed([v], d) { NeverBoth(config, kind, acks, comments, i - 1, d); }
      }
    }
  }

  /** A fingerprint that a comment was suppressed for is not handed over by another. */
  lemma {:induction false} NeverBoth(config: Config, kind: Option<string>, acks: seq<Delivery>, comments: seq<Comment>, i: nat, d: Delivery)
    requires i < |comments| && Suppressed([Verdicts(config, kind, acks, comments)[i]], d)
    ensures !HandsOver(Verdicts(config, kind, acks, comments)[..i + 1], d)
  {
    hide Classify, PairAcked;
    var vs := Verdicts(config, kind, acks, comments);
    ClassifyAcks(config, kind, acks, comments[i]);
    assert PairAcked(acks, d);
    if HandsOver(vs[..i + 1], d) {
      var k :| 0 <= k < |vs[..i + 1]| && vs[..i + 1][k].Deliver? && vs[..i + 1][k].env.content.messageId == Text(d.message) && d.message != ""
               && d.source == vs[..i + 1][k].env.source && d.digest == Sha256(vs[..i + 1][k].env.content);
      assert vs[..i + 1][k] == vs[k];
      ClassifyAcks(config, kind, acks, comments[k]);
    }
  }

  /**
   An edited comment is delivered again: in every reachable state, an ack for other content of the
   same comment does not suppress it, and an ack for this content does.
   */
  lemma {:induction false} EditedCommentDeliveredAgain(config: Config, kind: Option<string>, run: seq<Step>, c: Comment, seen: Delivery)
    requires Legal(run, config.ackLimit) && seen in Exec(run, config.ackLimit).acks
    requires c.body.ControlBody? && c.body.payload.Object? && c.id.Some? && c.id.value > 0 && seen.source == Decimal(c.id.value)
    requires Classify(config, kind, [], c).Deliver?
    ensures var v := Classify(config, kind, Exec(run, config.ackLimit).acks, c);
            if seen.digest == Sha256(c.body.payload.control) then v.AlreadyAcked? else v == Classify(config, kind, [], c)
  {
    hide Legal, Exec, Decimal;
    Reachable(run, config.ackLimit);
    var acks := Exec(run, config.ackLimit).acks;
    var k :| 0 <= k < |acks| && acks[k] == seen;
    forall i | 0 <= i < |acks| && acks[i].source == seen.source
      ensures i == k
    {}
  }

  class GitHubControlAdapter {
    const config: Config
    var acks: seq<Delivery>    // ack ledger file
    var file: seq<Delivery>    // pending ledger file
    var queues: seq<Queue>     // self._pending
    ghost var run: seq<Step>   // every durable step since the ledgers were created

    ghost predicate Valid()
      reads this
    {
      && Legal(run, config.ackLimit)
      && var s := Exec(run, config.ackLimit);
         s.acks == acks && s.file == file && s.queues == queues && s.phase.Idle?
    }

    /** A new process over existing ledgers: the queues are rebuilt from the pending ledger. */
    constructor (config: Config, acks: seq<Delivery>, file: seq<Delivery>, ghost history: seq<Step>)
      requires Legal(history, config.ackLimit)
      requires Exec(history, config.ackLimit).acks == acks && Exec(history, config.ackLimit).file == file
      ensures Valid() && this.config == config && this.acks == acks && this.file == file
      ensures queues == Rebuild(file) && run == history + [Restart]
    {
      this.config, this.acks, this.file := config, acks, file;
      var qs: seq<Queue> := [];
      var i := 0;
      while i < |file|
        invariant 0 <= i <= |file|
        invariant RebuildOnto(qs, file[i..]) == Rebuild(file)
      {
        qs := Enqueue(qs, file[i]);
        i := i + 1;
      }
      queues, run := qs, history + [Restart];
      Extend(history, Restart, config.ackLimit);
    }

    method RememberPending(d: Delivery)
      requires Valid() && ValidEntry(d)
      modifies this`file, this`queues, this`run
      ensures Valid() && d in Flatten(queues)
      ensures old(d in QueueOf(queues, d.message)) ==> queues == old(queues) && file == old(file) && run == old(run)
      ensures old(d !in QueueOf(queues, d.message)) ==>
                queues == Enqueue(old(queues), d) && file == Last(Flatten(queues), config.ackLimit) && run == old(run) + [Remember(d)]
    {
      Reachable(run, config.ackLimit);
      QueueMembership(queues, d);
      if d !in QueueOf(queues, d.message) {
        EnqueueAdds(queues, d);
        Extend(run, Remember(d), config.ackLimit);
        queues := Enqueue(queues, d);
        file := Last(Flatten(queues), config.ackLimit);
        run := run + [Remember(d)];
      }
    }

    /** `_discard_pending`, reached only for a delivery whose source and content are on the ack ledger. */
    method ReconcileAcked(d: Delivery)
      requires Legal(run, config.ackLimit)
      requires var s := Exec(run, config.ackLimit);
               s.acks == acks && s.file == file && s.queues == queues && (s.phase.Idle? || s.phase == Committed(d))
      requires PairAcked(acks, d)
      modifies this`file, this`queues, this`run
      ensures Valid() && queues == Discard(old(queues), d) && file == Last(Flatten(queues), config.ackLimit)
      ensures run == old(run) + [Reconcile(d)]
    {
      Extend(run, Reconcile(d), config.ackLimit);
      queues := Discard(queues, d);
      file := Last(Flatten(queues), config.ackLimit);
      run := run + [Reconcile(d)];
    }

    /** Re-arm one exact fingerprint for an outbox recovery publish; `digest` is None when malformed. */
    method PrepareRecoveryDelivery(source: string, message: string, digest: Option<Digest>) returns (r: Result<(), Reason>)
      requires Valid()
      modifies this`file, this`queues, this`run
      ensures Valid() && old(run) <= run
      ensures r == if source == "" || message == "" then Err(IdentityRequired) else if digest.None? then Err(DigestInvalid) else Ok(())
      ensures r.Err? ==> queues == old(queues) && file == old(file) && run == old(run)
      ensures r.Ok? ==> var d := Delivery(source, message, digest.value);
                        && d in Flatten(queues)
                        && queues == (if d in QueueOf(old(queues), message) then old(queues) else Enqueue(old(queues), d))
                        && run == old(run) + if d in QueueOf(old(queues), message) then [] else [Remember(d)]
    {
      if source == "" || message == "" { return Err(IdentityRequired); }
      if digest.None? { return Err(DigestInvalid); }
      RememberPending(Delivery(source, message, digest.value));
      return Ok(());
    }

    /** Explicit retirement: removes the pending fingerprint, creates no ack. */
    method RetireExplicitly(d: Delivery, evidenceGiven: bool) returns (r: Result<(), Reason>)
      requires Valid()
      modifies this`file, this`queues, this`run
      ensures Valid() && old(run) <= run
      ensures r == if !evidenceGiven then Err(EvidenceRequired) else if d !in QueueOf(old(queues), d.message) then Err(PendingNotFound) else Ok(())
      ensures r.Err? ==> queues == old(queues) && file == old(file) && run == old(run)
      ensures r.Ok? ==> queues == Discard(old(queues), d) && d !in Flatten(queues) && run == old(run) + [Retire(d)]
      ensures r.Ok? ==> d in Exec(run, config.ackLimit).retired && Exec(run, config.ackLimit).acked == old(Exec(run, config.ackLimit).acked)
    {
      if !evidenceGiven { return Err(EvidenceRequired); }
      if d !in QueueOf(queues, d.message) { return Err(PendingNotFound); }
      Reachable(run, config.ackLimit);
      DiscardRemoves(queues, d);
      Extend(run, Retire(d), config.ackLimit);
      queues := Discard(queues, d);
      file := Last(Flatten(queues), config.ackLimit);
      run := run + [Retire(d)];
      return Ok(());
    }

    /** The ack is committed before the pending fingerprint is removed. */
    method PersistSuccessfulPublish(message: string)
      requires Legal(run, config.ackLimit)
      requires var s := Exec(run, config.ackLimit);
               && s.acks == acks && s.file == file && s.queues == queues
               && s.phase == (if Head(queues, message).None? then Idle else Posted(Head(queues, message).value))
      modifies this`acks, this`file, this`queues, this`run
      ensures Valid()
      ensures Head(old(queues), message).None? ==> acks == old(acks) && queues == old(queues) && file == old(file) && run == old(run)
      ensures Head(old(queues), message).Some? ==>
                var d := Head(old(queues), message).value;
                && acks == WithAck(old(acks), d, config.ackLimit) && queues == Discard(old(queues), d)
                && d in acks && d !in Flatten(queues)
                && run == old(run) + [CommitAck, Reconcile(d)]
    {
      hide Legal, Exec, WithAck, Discard, ValidQueues, Flatten, PublishInv, CustodyInv, Rebuild;
      Reachable(run, config.ackLimit);
      QueueMessages(queues, message);
      var queue := QueueOf(queues, message);
      if message == "" || queue == [] { return; }
      var pending := queue[0];
      WithAckKeeps(acks, pending, config.ackLimit);
      DiscardRemoves(queues, pending);
      Extend(run, CommitAck, config.ackLimit);
      acks := WithAck(acks, pending, config.ackLimit);
      run := run + [CommitAck];
      ReconcileAcked(pending);
    }

    /** `size` is that of the result comment, None when the projection has no UTF-8 form. */
    method PublishProjection(message: string, secretLike: bool, size: Option<nat>, verified: bool, outcome: RemoteOutcome)
      returns (r: Result<(), Reason>)
      requires Valid()
      modifies this`acks, this`file, this`queues, this`run
      ensures Valid() && old(run) <= run
      ensures r == if size.None? then Err(NotEncodable) else if secretLike then Err(SecretLike)
                   else if size.value > config.maxCommentBytes then Err(ProjectionTooLarge)
                   else if !verified then Err(SourceNotAllowed)
                   else if HeadAcked(old(queues), old(acks), message) || outcome == Accepted then Ok(()) else Err(PublishFailed)
      // A head that is already acknowledged is never posted again, only cleaned up.
      ensures r.Ok? && HeadAcked(old(queues), old(acks), message) ==>
                && acks == old(acks) && queues == Discard(old(queues), Head(old(queues), message).value)
                && run == old(run) + [Reconcile(Head(old(queues), message).value)]
      ensures r.Ok? && !HeadAcked(old(queues), old(acks), message) && Head(old(queues), message).Some? ==>
                var d := Head(old(queues), message).value;
                && acks == WithAck(old(acks), d, config.ackLimit) && queues == Discard(old(queues), d)
                && d in acks && d !in Flatten(queues) && run == old(run) + [Post(message), CommitAck, Reconcile(d)]
      // Without a pending delivery the projection is posted and nothing is written.
      ensures r.Ok? && Head(old(queues), message).None? ==>
                acks == old(acks) && queues == old(queues) && file == old(file) && run == old(run) + [Post(message)]
      // An error writes nothing, and only a client that raised after the post landed has posted.
      ensures r.Err? ==>
                && acks == old(acks) && queues == old(queues) && file == old(file)
                && run == old(run) + if r.error == PublishFailed && outcome == LandedButErrored
                                     then [Post(message)] + if Head(queues, message).Some? then [PostErrored] else [] else []
    {
      hide Legal, Exec, WithAck, Discard, Flatten, Rebuild;
      if size.None? { return Err(NotEncodable); }
      if secretLike { return Err(SecretLike); }
      if size.value > config.maxCommentBytes { return Err(ProjectionTooLarge); }
      if !verified { return Err(SourceNotAllowed); }
      var queue := QueueOf(queues, message);
      if queue != [] && queue[0] in acks {
        assert PairAcked(acks, queue[0]);
        ReconcileAcked(queue[0]);
        return Ok(());
      }
      if outcome == Refused { return Err(PublishFailed); }
      Extend(run, Post(message), config.ackLimit);
      run := run + [Post(message)];
      if outcome == LandedButErrored {
        PostFailed(message);
        return Err(PublishFailed);
      }
      PersistSuccessfulPublish(message);
      assert queue != [] ==> run == old(run) + [Post(message), CommitAck, Reconcile(queue[0])];
      return Ok(());
    }

    /** The remote side took the comment but the client raised: nothing is written. */
    ghost method PostFailed(message: string)
      requires Legal(run, config.ackLimit)
      requires var s := Exec(run, config.ackLimit);
               && s.acks == acks && s.file == file && s.queues == queues
               && s.phase == (if Head(queues, message).None? then Idle else Posted(Head(queues, message).value))
      modifies this`run
      ensures Valid() && run == old(run) + if Head(queues, message).Some? then [PostErrored] else []
    {
      if Head(queues, message).Some? {
        Extend(run, PostErrored, config.ackLimit);
        run := run + [PostErrored];
      }
    }

    /** The ledger work of the receive loop for one comment; `held` is what this receive already remembered. */
    method HandleComment(v: Verdict, ghost held: set<Delivery>)
      requires Valid()
      requires v.AlreadyAcked? ==> PairAcked(acks, Fingerprint(v.source, v.control))
      requires v.Deliver? ==> v.env.source != ""
      requires forall d :: d in held ==> d in Flatten(queues) && !PairAcked(acks, d)
      modifies this`file, this`queues, this`run
      ensures Valid() && old(run) <= run && queues == Handled(old(queues), v)
      ensures forall d :: d in held ==> d in Flatten(queues)
      ensures v.Deliver? ==> forall d :: d in FingerprintsOf(v.env) ==> d in Flatten(queues)
    {
      hide Legal, Exec, PublishInv, CustodyInv, Discard, Enqueue, ValidQueues;
      Reachable(run, config.ackLimit);
      match v {
        case Skip =>
        case Reject(_) =>
        case Raises =>
        case AlreadyAcked(source, control) =>
          var d := Fingerprint(source, control);
          if d in QueueOf(queues, d.message) {
            DiscardRemoves(queues, d);
            ReconcileAcked(d);
          }
        case Deliver(env) =>
          if Tracked(env.content) {
            var d := Fingerprint(env.source, env.content);
            if d !in QueueOf(queues, d.message) { EnqueueAdds(queues, d); }
            RememberPending(d);
          }
      }
    }

    /** The receive loop: collect deliverable envelopes and the first rejection until `n` are collected or a comment raises. */
    method ScanComments(comments: seq<Comment>, n: nat, kind: Option<string>)
      returns (result: seq<Envelope>, rejection: Option<Reason>, raised: bool, i: nat)
      requires Valid() && 0 < n
      modifies this`file, this`queues, this`run
      ensures Valid() && old(run) <= run
      ensures var vs := Verdicts(config, kind, acks, comments);
              && i <= |comments| && (forall k :: 0 <= k < i ==> !vs[k].Raises?)
              && (if raised then i < |comments| && vs[i].Raises? && |result| < n else |result| <= n && (i == |comments| || |result| == n))
              && result == Deliverable(vs[..i]) && rejection == FirstRejection(vs[..i]) && (i > 0 ==> |Deliverable(vs[..i - 1])| < n)
              && queues == HandledAll(old(queues), vs[..i])
      ensures forall d :: d in TrackedIn(result) ==> d in Flatten(queues) && !PairAcked(acks, d)
    {
      hide Legal, Exec, PairAcked, Classify, Handled, Flatten;
      ghost var vs := Verdicts(config, kind, acks, comments);
      result, rejection, raised, i := [], None, false, 0;
      while i < |comments| && |result| < n
        invariant 0 <= i <= |comments| && |result| <= n
        invariant Valid() && old(run) <= run
        invariant forall k :: 0 <= k < i ==> !vs[k].Raises?
        invariant result == Deliverable(vs[..i]) && (i > 0 ==> |Deliverable(vs[..i - 1])| < n)
        invariant rejection == FirstRejection(vs[..i])
        invariant queues == HandledAll(old(queues), vs[..i])
        invariant forall d :: d in TrackedIn(result) ==> d in Flatten(queues) && !PairAcked(acks, d)
      {
        var v := Classify(config, kind, acks, comments[i]);
        assert v == vs[i];
        if v.Raises? { return result, rejection, true, i; }
        ClassifyAcks(config, kind, acks, comments[i]);
        HandleComment(v, TrackedIn(result));
        assert vs[..i + 1][..i] == vs[..i];
        assert HandledAll(old(queues), vs[..i + 1]) == Handled(HandledAll(old(queues), vs[..i]), v);
        DeliverableOne(vs, i);
        if v.Reject? && rejection.None? { rejection := Some(v.reason); }
        if v.Deliver? {
          TrackedInAppend(result, v.env);
          result := result + [v.env];
        }
        i := i + 1;
      }
    }

    /**
     Receive: each tracked fingerprint is durably remembered before the control is handed out. The
     outcome is that of `Received`, which `ReceivedExactly` compares with the first deliverable comments.
     */
    method ReceiveControls(comments: seq<Comment>, limit: int, kind: Option<string>, verified: bool)
      returns (r: Result<seq<Envelope>, Reason>, ghost scanned: nat)
      requires Valid()
      modifies this`file, this`queues, this`run
      ensures Valid() && old(run) <= run
      ensures r == if verified then Received(Verdicts(config, kind, acks, comments), Min(limit, config.pollLimit)) else Err(SourceNotAllowed)
      // The comments scanned: none without a verified source or a positive limit, else up to the one that raises or fills the limit.
      ensures scanned <= |comments| && (!verified || Min(limit, config.pollLimit) <= 0 ==> scanned == 0 && run == old(run))
      ensures var vs, n := Verdicts(config, kind, acks, comments), Min(limit, config.pollLimit);
              verified && 0 < n ==>
                && (scanned > 0 ==> |Deliverable(vs[..scanned - 1])| < n) && (forall k :: 0 <= k < scanned ==> !vs[k].Raises?)
                && (scanned == |comments| || |Deliverable(vs[..scanned])| == n || vs[scanned].Raises?)
      ensures queues == HandledAll(old(queues), Verdicts(config, kind, acks, comments)[..scanned])
      // What is handed out under a string, non-empty message id is queued, and on record as handed out.
      ensures r.Ok? ==> forall i :: 0 <= i < |r.value| && r.value[i].content.messageId.Text? && r.value[i].content.messageId.text != "" ==>
                var d := Delivery(r.value[i].source, r.value[i].content.messageId.text, Sha256(r.value[i].content));
                d in Flatten(queues) && d in Exec(run, config.ackLimit).handed
    {
      hide HandledAll, Verdicts, Readable, PairAcked, Flatten, TrackedIn, Legal, Exec, Deliverable, Received;
      scanned := 0;
      assert queues == HandledAll(queues, []) by { HandledNone(queues); }
      if !verified { return Err(SourceNotAllowed), 0; }
      var n := Min(limit, config.pollLimit);
      if n <= 0 {
        NothingReceived(Verdicts(config, kind, acks, comments), n);
        return Ok([]), 0;
      }
      var result, rejection, raised, i := ScanComments(comments, n, kind);
      if raised {
        RaisedAt(Verdicts(config, kind, acks, comments), i, n);
        return Err(NotEncodable), i;
      }
      ReceivedAt(Verdicts(config, kind, acks, comments), i, n);
      if result == [] {
        return if rejection.Some? then Err(rejection.value) else Ok([]), i;
      }
      HandedOut(run, TrackedIn(result), config.ackLimit);
      run := run + [HandOut(TrackedIn(result))];
      TrackedAre(result);
      return Ok(result), i;
    }
  }

  lemma HandledNone(qs: seq<Queue>)
    ensures HandledAll(qs, []) == qs
  {}

  datatype RemoteOutcome = Accepted | Refused | LandedButErrored

  predicate HeadAcked(queues: seq<Queue>, acks: seq<Delivery>, message: string) {
    Head(queues, message).Some? && Head(queues, message).value in acks
  }
}
