/** The digest-chained journal, the snapshot file that must agree with it, and every crash point between their writes. */
module OfficeStore {
  import opened Common
  import opened OfficeContracts
  import opened Text

  datatype Record = Record(body: RecordBody, digest: Digest)

  /** A journal line: a well-shaped record, or anything `json.loads` or the shape check rejects. */
  datatype Line = Entry(record: Record) | Garbage

  datatype SnapshotFile = Stored(snapshot: Snapshot, digest: Digest) | Corrupt

  datatype Disk = Disk(journal: Option<seq<Line>>, snapshot: Option<SnapshotFile>)

  datatype RunIdentity = RunIdentity(project: string, run: string)

  /** The store's own identity; its constructor strips both components. */
  type Identity = id: RunIdentity | Trimmed(id.project) && Trimmed(id.run) witness RunIdentity("p", "r")

  /** What `_read_journal` carries from line to line: the previous snapshot and record digest. */
  datatype Cursor = Cursor(snapshot: Option<Snapshot>, digest: Digest)

  const Start := Cursor(None, NoDigest)

  /** The loop body of `_read_journal` on line number `index`; None when it raises. */
  function ReadLine(id: Identity, line: Line, index: nat, at: Cursor): Option<Cursor> {
    if line.Garbage? then None
    else
      var body := line.record.body;
      var snapshot, transition := MakeSnapshot(body.snapshot), MakeTransition(body.transition);
      if line.record.digest != OfRecord(body) || body.previous != at.digest then None
      else if snapshot.None? || body.snapshotDigest != OfSnapshot(snapshot.value) || transition.None? then None
      else
        var s, t := snapshot.value, transition.value;
        if body.transitionDigest != OfTransition(t) then None
        else if t.sequence != index || t.project != id.project || t.run != id.run then None
        else if s.revision != t.toRevision || s.state != t.toState || s.lastTransition != OfTransition(t) then None
        else if at.snapshot.Some? && (t.fromRevision != at.snapshot.value.revision || t.fromState != at.snapshot.value.state
                                      || t.previous != at.snapshot.value.lastTransition) then None
        else if at.snapshot.None? && (t.fromRevision != 0 || t.previous != NoDigest) then None
        else Some(Cursor(Some(s), line.record.digest))
  }

  function ReadJournal(id: Identity, lines: seq<Line>): Option<Cursor> {
    if lines == [] then Some(Start)
    else
      match ReadJournal(id, lines[..|lines| - 1])
      case None => None
      case Some(at) => ReadLine(id, lines[|lines| - 1], |lines|, at)
  }

  function ReadSnapshot(id: Identity, file: Option<SnapshotFile>): Option<Snapshot> {
    if file.None? || file.value.Corrupt? then None
    else
      var s := MakeSnapshot(file.value.snapshot);
      if s.None? || file.value.digest != OfSnapshot(s.value) || s.value.project != id.project || s.value.run != id.run then None else s
  }

  /** `load`: the current snapshot, or None when the store rejects its own files. */
  function Load(id: Identity, disk: Disk): Option<Snapshot> {
    var s := ReadSnapshot(id, disk.snapshot);
    if s.None? || disk.journal.None? then None
    else
      match ReadJournal(id, disk.journal.value)
      case None => None
      case Some(at) =>
        if at.snapshot.None? then
          if s.value.revision != 0 || s.value.lastTransition != NoDigest then None else s
        else if s != at.snapshot then None
        else s
  }

  // ---- The hash chain ----

  ghost predicate Accepted(id: Identity, lines: seq<Line>) {
    ReadJournal(id, lines).Some?
  }

  /**
   Hash-chain commitment: two accepted journals with the same final record digest are the same
   journal, record for record (whatever stores they belong to).
   */
  lemma {:induction false} ChainCommits(id1: Identity, lines1: seq<Line>, id2: Identity, lines2: seq<Line>)
    requires Accepted(id1, lines1) && Accepted(id2, lines2)
    requires ReadJournal(id1, lines1).value.digest == ReadJournal(id2, lines2).value.digest
    ensures lines1 == lines2
    decreases |lines1|
  {
    hide ReadLine;
    if lines1 != [] {
      ReadLineBinds(id1, lines1[|lines1| - 1], |lines1|, ReadJournal(id1, lines1[..|lines1| - 1]).value);
    }
    if lines2 != [] {
      ReadLineBinds(id2, lines2[|lines2| - 1], |lines2|, ReadJournal(id2, lines2[..|lines2| - 1]).value);
    }
    if lines1 != [] && lines2 != [] {
      ChainCommits(id1, lines1[..|lines1| - 1], id2, lines2[..|lines2| - 1]);
      assert lines1 == lines1[..|lines1| - 1] + [lines1[|lines1| - 1]];
      assert lines2 == lines2[..|lines2| - 1] + [lines2[|lines2| - 1]];
    }
  }

  /** What one accepted line fixes about itself, the cursor before it and the cursor after it. */
  lemma ReadLineBinds(id: Identity, line: Line, index: nat, at: Cursor)
    requires ReadLine(id, line, index, at).Some?
    ensures line.Entry? && line.record.digest == OfRecord(line.record.body) && line.record.body.previous == at.digest
    ensures var t, after := line.record.body.transition, ReadLine(id, line, index, at).value;
            && t.sequence == index == t.toRevision == t.fromRevision + 1
            && after.digest == line.record.digest
            && after.snapshot.Some? && after.snapshot.value.revision == index && after.snapshot.value.state == t.toState
            && (at.snapshot.Some? ==> t.fromState == at.snapshot.value.state && t.fromRevision == at.snapshot.value.revision)
  {}

  /** The transitions of a journal form one connected path of consecutive revisions starting at 0. */
  ghost predicate ConnectedPath(lines: seq<Line>) {
    && (forall i :: 0 <= i < |lines| ==> lines[i].Entry?)
    && (forall i :: 0 <= i < |lines| ==>
          var t := lines[i].record.body.transition;
          t.fromRevision == i && t.toRevision == i + 1 && t.sequence == i + 1)
    && (forall i :: 0 <= i < |lines| - 1 ==>
          lines[i].record.body.transition.toState == lines[i + 1].record.body.transition.fromState)
  }

  lemma {:induction false} AcceptedIsConnected(id: Identity, lines: seq<Line>)
    requires Accepted(id, lines)
    ensures ConnectedPath(lines)
    ensures var at := ReadJournal(id, lines).value;
            if lines == [] then at == Start
            else && at.snapshot.Some? && at.snapshot.value.revision == |lines|
                 && at.snapshot.value.state == lines[|lines| - 1].record.body.transition.toState
                 && at.digest == lines[|lines| - 1].record.digest
  {
    hide ReadLine;
    if lines != [] {
      var init := lines[..|lines| - 1];
      AcceptedIsConnected(id, init);
      ReadLineBinds(id, lines[|lines| - 1], |lines|, ReadJournal(id, init).value);
      assert forall i :: 0 <= i < |init| ==> lines[i] == init[i];
    }
  }

  /** Wherever `load` succeeds, the revision is the journal length and the snapshot is the last journalled one. */
  lemma {:induction false} LoadAgreesWithJournal(id: Identity, disk: Disk)
    requires Load(id, disk).Some?
    ensures disk.journal.Some? && ConnectedPath(disk.journal.value)
    ensures Load(id, disk).value.revision == |disk.journal.value|
    ensures disk.journal.value != [] ==> ReadJournal(id, disk.journal.value).value.snapshot == Load(id, disk)
  {
    AcceptedIsConnected(id, disk.journal.value);
  }

  /** Line `i` is a sealed record of this run, numbered by its place and linked to the line before it. */
  ghost predicate Links(id: Identity, lines: seq<Line>, i: nat)
    requires i < |lines|
  {
    && lines[i].Entry?
    && var record := lines[i].record;
       var snapshot, transition := MakeSnapshot(record.body.snapshot), MakeTransition(record.body.transition);
       && snapshot.Some? && transition.Some?
       && var s, t := snapshot.value, transition.value;
          && record.digest == OfRecord(record.body) && record.body.snapshotDigest == OfSnapshot(s) && record.body.transitionDigest == OfTransition(t)
          && t.project == id.project && t.run == id.run && t.toRevision == s.revision == i + 1
          && t.toState == s.state && s.lastTransition == OfTransition(t)
          && if i == 0 then record.body.previous == NoDigest && t.previous == NoDigest
             else && lines[i - 1].Entry? && record.body.previous == lines[i - 1].record.digest
                  && var before := MakeSnapshot(lines[i - 1].record.body.snapshot);
                     before.Some? && t.fromState == before.value.state && t.previous == before.value.lastTransition
  }

  /** The reader accepts exactly the journals in which every line is linked, and its cursor is the last line. */
  lemma {:induction false} AcceptedExactly(id: Identity, lines: seq<Line>)
    ensures Accepted(id, lines) <==> forall i :: 0 <= i < |lines| ==> Links(id, lines, i)
    ensures Accepted(id, lines) && lines != [] ==>
              var line := lines[|lines| - 1];
              line.Entry? && ReadJournal(id, lines).value == Cursor(MakeSnapshot(line.record.body.snapshot), line.record.digest)
  {
    if lines != [] {
      hide MakeSnapshot, ReadLine, Links;
      var init := lines[..|lines| - 1];
      AcceptedExactly(id, init);
      forall i | 0 <= i < |init|
        ensures Links(id, init, i) <==> Links(id, lines, i)
      {
        LinksInPrefix(id, lines, i);
      }
      if Accepted(id, init) {
        LastLinks(id, lines);
      }
    }
  }

  lemma LinksInPrefix(id: Identity, lines: seq<Line>, i: nat)
    requires i < |lines| - 1
    ensures Links(id, lines[..|lines| - 1], i) <==> Links(id, lines, i)
  {}

  lemma {:induction false} LastLinks(id: Identity, lines: seq<Line>)
    requires lines != [] && Accepted(id, lines[..|lines| - 1])
    requires forall i :: 0 <= i < |lines| - 1 ==> Links(id, lines, i)
    requires |lines| > 1 ==>
               var line := lines[|lines| - 2];
               line.Entry? && ReadJournal(id, lines[..|lines| - 1]).value == Cursor(MakeSnapshot(line.record.body.snapshot), line.record.digest)
    ensures Accepted(id, lines) <==> Links(id, lines, |lines| - 1)
    ensures Accepted(id, lines) ==>
              var line := lines[|lines| - 1];
              line.Entry? && ReadJournal(id, lines).value == Cursor(MakeSnapshot(line.record.body.snapshot), line.record.digest)
  {
    var n := |lines| - 1;
    assert n > 0 ==> Links(id, lines, n - 1);
    assert lines[..n] == [] ==> ReadJournal(id, lines[..n]) == Some(Start);
    assert ReadJournal(id, lines) == ReadLine(id, lines[n], n + 1, ReadJournal(id, lines[..n]).value);
    hide MakeSnapshot, MakeTransition, ReadJournal;
  }

  /** `load` succeeds exactly on a linked journal of this run beside the snapshot of its last line. */
  lemma {:induction false} LoadExactly(id: Identity, disk: Disk)
    ensures Load(id, disk).Some? <==>
            && disk.journal.Some? && disk.snapshot.Some? && disk.snapshot.value.Stored?
            && var lines, s := disk.journal.value, MakeSnapshot(disk.snapshot.value.snapshot);
               && s.Some? && disk.snapshot.value.digest == OfSnapshot(s.value) && s.value.project == id.project && s.value.run == id.run
               && (forall i :: 0 <= i < |lines| ==> Links(id, lines, i))
               && if lines == [] then s.value.revision == 0 && s.value.lastTransition == NoDigest
                  else lines[|lines| - 1].Entry? && s == MakeSnapshot(lines[|lines| - 1].record.body.snapshot)
    ensures Load(id, disk).Some? ==> Load(id, disk) == MakeSnapshot(disk.snapshot.value.snapshot)
  {
    hide MakeSnapshot, Links, ReadJournal;
    if disk.journal.Some? {
      var lines := disk.journal.value;
      AcceptedExactly(id, lines);
      assert lines == [] ==> ReadJournal(id, lines) == Some(Start) by { EmptyJournal(id); }
      if lines != [] && Accepted(id, lines) {
        assert Links(id, lines, |lines| - 1);
        LastIsEntry(id, lines);
      }
    }
  }

  lemma EmptyJournal(id: Identity)
    ensures ReadJournal(id, []) == Some(Start)
  {}

  lemma LastIsEntry(id: Identity, lines: seq<Line>)
    requires lines != [] && Links(id, lines, |lines| - 1)
    ensures lines[|lines| - 1].Entry? && MakeSnapshot(lines[|lines| - 1].record.body.snapshot).Some?
  {}

  // ---- Records as lines of text ----

  /** Line separators that JSON without ASCII escapes writes as they are: control characters are escaped, these are not. */
  predicate RawSeparator(c: char) {
    IsBreak(c) && c >= ' '
  }

  function Separators(s: string): nat {
    if s == "" then 0 else (if RawSeparator(s[0]) then 1 else 0) + Separators(s[1..])
  }

  lemma {:induction false} SeparatorsExactly(s: string)
    ensures Separators(s) == 0 <==> forall i :: 0 <= i < |s| ==> !RawSeparator(s[i])
  {
    if s != "" {
      SeparatorsExactly(s[1..]);
      assert forall i :: 1 <= i < |s| ==> s[i] == s[1..][i - 1];
    }
  }

  function RefSeparators(refs: seq<Ref>): nat {
    if refs == [] then 0
    else RefSeparators(refs[..|refs| - 1]) + if refs[|refs| - 1].Plain? then Separators(refs[|refs| - 1].text) else 0
  }

  /** Separators in the texts of a record; state names and digests hold none. */
  function RecordSeparators(body: RecordBody): nat {
    var t, s := body.transition, body.snapshot;
    Separators(t.project) + Separators(t.run) + Separators(t.reason) + Separators(s.project) + Separators(s.run) +
    Separators(s.plan) + Separators(s.baseline) + RefSeparators(s.refs) + Separators(s.pendingApproval) + Separators(s.pendingManual)
  }

  /** A text that stays on its line: none of U+0085, U+2028 and U+2029. */
  ghost predicate OneLine(s: string) {
    forall i :: 0 <= i < |s| ==> s[i] != '\U{85}' && s[i] != '\U{2028}' && s[i] != '\U{2029}'
  }

  lemma {:induction false} OneLineExactly(s: string)
    ensures Separators(s) == 0 <==> OneLine(s)
  {
    SeparatorsExactly(s);
    assert forall c: char :: RawSeparator(c) <==> c == '\U{85}' || c == '\U{2028}' || c == '\U{2029}';
  }

  lemma {:induction false} RefSeparatorsExactly(refs: seq<Ref>)
    ensures RefSeparators(refs) == 0 <==> forall i :: 0 <= i < |refs| && refs[i].Plain? ==> OneLine(refs[i].text)
  {
    if refs != [] {
      hide OneLine, Separators;
      RefSeparatorsExactly(refs[..|refs| - 1]);
      if refs[|refs| - 1].Plain? { OneLineExactly(refs[|refs| - 1].text); }
    }
  }

  /** A record is written as one line exactly when every text in it stays on its line. */
  lemma {:induction false} RecordIsOneLineExactly(record: Record)
    ensures LinesOf(record) == [Entry(record)] <==> RecordSeparators(record.body) == 0
    ensures RecordSeparators(record.body) == 0 <==>
            var t, s := record.body.transition, record.body.snapshot;
            && OneLine(t.project) && OneLine(t.run) && OneLine(t.reason) && OneLine(s.project) && OneLine(s.run) && OneLine(s.plan) && OneLine(s.baseline)
            && OneLine(s.pendingApproval) && OneLine(s.pendingManual)
            && forall i :: 0 <= i < |s.refs| && s.refs[i].Plain? ==> OneLine(s.refs[i].text)
  {
    hide OneLine, Separators, RefSeparators;
    var t, s := record.body.transition, record.body.snapshot;
    OneLineExactly(t.project);
    OneLineExactly(t.run);
    OneLineExactly(t.reason);
    OneLineExactly(s.project);
    OneLineExactly(s.run);
    OneLineExactly(s.plan);
    OneLineExactly(s.baseline);
    OneLineExactly(s.pendingApproval);
    OneLineExactly(s.pendingManual);
    RefSeparatorsExactly(s.refs);
  }

  function Fragments(n: nat): seq<Line> {
    seq(n, _ => Garbage)
  }

  /** The lines `splitlines` makes of a written record: a separator inside it leaves only pieces that are no JSON. */
  function LinesOf(record: Record): seq<Line> {
    var n := RecordSeparators(record.body);
    if n == 0 then [Entry(record)] else Fragments(n + 1)
  }

  // ---- Operations as sequences of durable writes ----

  /** `encodable`: every text of the command has a UTF-8 form, which a lone surrogate has not. */
  datatype Command =
    | Initialize(plan: string, baseline: string, state: WorkflowState, encodable: bool)
    | Advance(toState: WorkflowState, reason: string, refs: Option<seq<Ref>>, approval: Option<string>, manual: Option<string>, encodable: bool)

  function Pick<T>(given: Option<T>, current: T): T {
    if given.Some? then given.value else current
  }

  function NextTransition(id: Identity, current: Snapshot, toState: WorkflowState, reason: string): Option<Transition> {
    MakeTransition(Transition(id.project, id.run, current.revision + 1, current.revision, current.revision + 1,
                              current.state, toState, reason, current.lastTransition))
  }

  function NextSnapshot(id: Identity, current: Snapshot, cmd: Command, t: Transition): Option<Snapshot>
    requires cmd.Advance?
  {
    MakeSnapshot(Snapshot(id.project, id.run, current.revision + 1, cmd.toState, current.plan, current.baseline,
                          Pick(cmd.refs, current.refs), Pick(cmd.approval, current.pendingApproval),
                          Pick(cmd.manual, current.pendingManual), OfTransition(t)))
  }

  function NextRecord(t: Transition, s: Snapshot, previous: Digest): Record {
    var body := RecordBody(t, OfTransition(t), s, OfSnapshot(s), previous);
    Record(body, OfRecord(body))
  }

  /** The new snapshot a command would commit, or None when it raises before writing anything. */
  function Planned(id: Identity, disk: Disk, cmd: Command): Option<Snapshot> {
    match cmd
    case Initialize(plan, baseline, state, _) =>
      if disk.snapshot.Some? || disk.journal.Some? then None
      else MakeSnapshot(Snapshot(id.project, id.run, 0, state, plan, baseline, [], "", "", NoDigest))
    case Advance(toState, reason, _, _, _, encodable) =>
      var current := Load(id, disk);
      if current.None? || !encodable then None
      else
        var t := NextTransition(id, current.value, toState, reason);
        if t.None? then None else NextSnapshot(id, current.value, cmd, t.value)
  }

  /** The record a planned transition appends to the journal. */
  function NextEntry(id: Identity, disk: Disk, cmd: Command): Record
    requires cmd.Advance? && Planned(id, disk, cmd).Some?
  {
    var t := NextTransition(id, Load(id, disk).value, cmd.toState, cmd.reason).value;
    NextRecord(t, Planned(id, disk, cmd).value, ReadJournal(id, disk.journal.value).value.digest)
  }

  /** The disk after the first durable write of a planned command: the journal is touched or appended to. */
  function AfterJournalWrite(id: Identity, disk: Disk, cmd: Command): Disk
    requires Planned(id, disk, cmd).Some?
  {
    if cmd.Initialize? then disk.(journal := Some([]))
    else disk.(journal := Some(disk.journal.value + LinesOf(NextEntry(id, disk, cmd))))
  }

  /** The disk after the last write: `initialize` fails to encode the snapshot only when the journal exists already. */
  function AfterLastWrite(id: Identity, disk: Disk, cmd: Command): Disk
    requires Planned(id, disk, cmd).Some?
  {
    var s, written := Planned(id, disk, cmd).value, AfterJournalWrite(id, disk, cmd);
    if cmd.Initialize? && !cmd.encodable then written else written.(snapshot := Some(Stored(s, OfSnapshot(s))))
  }

  /**
   What a caller has to see to before the call: an initial snapshot has a UTF-8 form, and no text
   that a transition saves holds a raw line separator.
   */
  predicate Commits(id: Identity, disk: Disk, cmd: Command)
    requires Planned(id, disk, cmd).Some?
  {
    if cmd.Initialize? then cmd.encodable else RecordSeparators(NextEntry(id, disk, cmd).body) == 0
  }

  /** The journals a torn append can leave: the record broke off in any of its pieces. */
  ghost function TornAppends(id: Identity, disk: Disk, cmd: Command): set<Disk>
    requires Planned(id, disk, cmd).Some?
  {
    if cmd.Initialize? then {}
    else set n | 1 <= n <= RecordSeparators(NextEntry(id, disk, cmd).body) + 1 :: disk.(journal := Some(disk.journal.value + Fragments(n)))
  }

  /** Every disk a process can leave behind when it dies during the command, a torn journal line included. */
  ghost function CrashPoints(id: Identity, disk: Disk, cmd: Command): set<Disk> {
    if Planned(id, disk, cmd).None? then {disk}
    else {disk, AfterJournalWrite(id, disk, cmd), AfterLastWrite(id, disk, cmd)} + TornAppends(id, disk, cmd)
  }

  lemma {:induction false} AppendedIsRead(id: Identity, lines: seq<Line>, line: Line)
    requires Accepted(id, lines)
    ensures ReadJournal(id, lines + [line]) == ReadLine(id, line, |lines| + 1, ReadJournal(id, lines).value)
  {
    hide ReadLine;
    assert (lines + [line])[..|lines|] == lines;
  }

  /** What the constructors make of the next transition and snapshot of a normalised current snapshot. */
  lemma {:induction false} NextIsNormal(id: Identity, current: Snapshot, cmd: Command)
    requires cmd.Advance? && current.project == id.project && current.run == id.run && MakeSnapshot(current) == Some(current)
    requires NextTransition(id, current, cmd.toState, cmd.reason).Some?
    requires NextSnapshot(id, current, cmd, NextTransition(id, current, cmd.toState, cmd.reason).value).Some?
    ensures var t := NextTransition(id, current, cmd.toState, cmd.reason).value;
            var s := NextSnapshot(id, current, cmd, t).value;
            && MakeTransition(t) == Some(t) && MakeSnapshot(s) == Some(s)
            && t.project == s.project == id.project && t.run == s.run == id.run
            && t.sequence == t.toRevision == s.revision == current.revision + 1 && t.fromRevision == current.revision
            && t.fromState == current.state && t.toState == s.state == cmd.toState
            && t.previous == current.lastTransition && s.lastTransition == OfTransition(t)
            && s.plan == current.plan && s.baseline == current.baseline
            && s.refs == (if cmd.refs.Some? then NormalRefs(cmd.refs.value) else current.refs)
            && s.pendingApproval == (if cmd.approval.Some? then Strip(cmd.approval.value) else current.pendingApproval)
            && s.pendingManual == (if cmd.manual.Some? then Strip(cmd.manual.value) else current.pendingManual)
  {
    MakeTransitionAgain(Transition(id.project, id.run, current.revision + 1, current.revision, current.revision + 1,
                                   current.state, cmd.toState, cmd.reason, current.lastTransition));
    var t := NextTransition(id, current, cmd.toState, cmd.reason).value;
    MakeSnapshotAgain(Snapshot(id.project, id.run, current.revision + 1, cmd.toState, current.plan, current.baseline,
                               Pick(cmd.refs, current.refs), Pick(cmd.approval, current.pendingApproval),
                               Pick(cmd.manual, current.pendingManual), OfTransition(t)));
  }

  lemma {:induction false} LoadedIsNormal(id: Identity, disk: Disk)
    requires Load(id, disk).Some?
    ensures var s := Load(id, disk).value; s.project == id.project && s.run == id.run && MakeSnapshot(s) == Some(s)
  {
    hide MakeSnapshot, ReadJournal;
    MakeSnapshotAgain(disk.snapshot.value.snapshot);
  }

  /** Pieces of a record are rejected behind any journal. */
  lemma {:induction false} FragmentsReject(id: Identity, lines: seq<Line>, n: nat)
    requires n >= 1
    ensures ReadJournal(id, lines + Fragments(n)).None?
  {
    var all := lines + Fragments(n);
    assert all[..|lines| + 1][..|lines|] == lines;
    PrefixRejects(id, all, |lines| + 1);
  }

  /** The snapshot a transition plans, in terms of the one that loads now. */
  lemma {:induction false} PlannedAdvance(id: Identity, disk: Disk, cmd: Command)
    requires cmd.Advance? && Planned(id, disk, cmd).Some?
    ensures var s := Planned(id, disk, cmd).value;
            && s.revision == Load(id, disk).value.revision + 1 && s.state == cmd.toState
            && s.project == id.project && s.run == id.run && MakeSnapshot(s) == Some(s)
            && s.plan == Load(id, disk).value.plan && s.baseline == Load(id, disk).value.baseline
            && s.refs == (if cmd.refs.Some? then NormalRefs(cmd.refs.value) else Load(id, disk).value.refs)
            && s.pendingApproval == (if cmd.approval.Some? then Strip(cmd.approval.value) else Load(id, disk).value.pendingApproval)
            && s.pendingManual == (if cmd.manual.Some? then Strip(cmd.manual.value) else Load(id, disk).value.pendingManual)
  {
    hide MakeSnapshot, MakeTransition, NextTransition, NextSnapshot, Load;
    LoadedIsNormal(id, disk);
    NextIsNormal(id, Load(id, disk).value, cmd);
  }

  /** When `transition` gets as far as writing, and the whole snapshot and transition it then writes. */
  lemma {:induction false} AdvanceExactly(id: Identity, disk: Disk, cmd: Command)
    requires cmd.Advance?
    ensures Planned(id, disk, cmd).Some? <==>
            && Load(id, disk).Some? && cmd.encodable && !cmd.toState.Undeclared? && Keeps(cmd.reason, 512)
            && (cmd.refs.Some? ==> KeepsRefs(cmd.refs.value))
            && (cmd.approval.Some? ==> Strip(cmd.approval.value) == "" || Keeps(cmd.approval.value, 512))
            && (cmd.manual.Some? ==> Strip(cmd.manual.value) == "" || Keeps(cmd.manual.value, 512))
    ensures Planned(id, disk, cmd).Some? ==>
              var now, body := Load(id, disk).value, NextEntry(id, disk, cmd).body;
              && body.transition == Transition(id.project, id.run, now.revision + 1, now.revision, now.revision + 1, now.state, cmd.toState,
                                               Strip(cmd.reason), now.lastTransition)
              && body.snapshot == Planned(id, disk, cmd).value && body.snapshot.lastTransition == OfTransition(body.transition)
  {
    hide Keeps, Names, Strip, TextOk, IdentityOk, ReadJournal, KeepsRefs, NormalRefs, RefsOk, HasDuplicate;
    if Load(id, disk).Some? {
      var now := Load(id, disk).value;
      LoadedIsNormal(id, disk);
      SnapshotExactly(now);
      StripTrims(id.project);
      StripTrims(id.run);
      TransitionExactly(Transition(id.project, id.run, now.revision + 1, now.revision, now.revision + 1, now.state, cmd.toState, cmd.reason, now.lastTransition));
      var t := NextTransition(id, now, cmd.toState, cmd.reason);
      if t.Some? {
        SnapshotExactly(Snapshot(id.project, id.run, now.revision + 1, cmd.toState, now.plan, now.baseline, Pick(cmd.refs, now.refs),
                                 Pick(cmd.approval, now.pendingApproval), Pick(cmd.manual, now.pendingManual), OfTransition(t.value)));
      }
    }
  }

  /** When `initialize` gets as far as writing, and the whole snapshot it then writes. */
  lemma {:induction false} InitializeExactly(id: Identity, disk: Disk, cmd: Command)
    requires cmd.Initialize?
    ensures Planned(id, disk, cmd).Some? <==>
            && disk == Disk(None, None) && Names(id.project) && Names(id.run) && !cmd.state.Undeclared? && Keeps(cmd.plan, 512) && Keeps(cmd.baseline, 512)
    ensures Planned(id, disk, cmd).Some? ==>
              Planned(id, disk, cmd).value == Snapshot(id.project, id.run, 0, cmd.state, Strip(cmd.plan), Strip(cmd.baseline), [], "", "", NoDigest)
  {
    hide Keeps, Names, TextOk, IdentityOk, Strip;
    StripTrims(id.project);
    StripTrims(id.run);
    StripTrims("");
    SnapshotExactly(Snapshot(id.project, id.run, 0, cmd.state, cmd.plan, cmd.baseline, [], "", "", NoDigest));
  }

  /** A transition's record is accepted behind the journal it was planned on, exactly when it stays one line. */
  lemma {:induction false} AdvanceIsAccepted(id: Identity, disk: Disk, cmd: Command)
    requires cmd.Advance? && Planned(id, disk, cmd).Some?
    ensures var after := ReadJournal(id, AfterJournalWrite(id, disk, cmd).journal.value);
            if Commits(id, disk, cmd) then after.Some? && after.value.snapshot == Planned(id, disk, cmd) else after.None?
  {
    hide MakeSnapshot, MakeTransition, NextTransition, NextSnapshot, RecordSeparators;
    LoadAgreesWithJournal(id, disk);
    if Commits(id, disk, cmd) {
      AcceptedIsConnected(id, disk.journal.value);
      LoadedIsNormal(id, disk);
      NextIsNormal(id, Load(id, disk).value, cmd);
      AppendedIsRead(id, disk.journal.value, Entry(NextEntry(id, disk, cmd)));
    } else {
      FragmentsReject(id, disk.journal.value, RecordSeparators(NextEntry(id, disk, cmd).body) + 1);
    }
  }

  /** The empty journal goes with the initial snapshot. */
  lemma {:induction false} InitializeIsAccepted(id: Identity, disk: Disk, cmd: Command)
    requires cmd.Initialize? && Planned(id, disk, cmd).Some?
    ensures var s := Planned(id, disk, cmd).value;
            && MakeSnapshot(s) == Some(s) && s.revision == 0 && s.lastTransition == NoDigest
            && s.project == id.project && s.run == id.run
  {
    MakeSnapshotAgain(Snapshot(id.project, id.run, 0, cmd.state, cmd.plan, cmd.baseline, [], "", "", NoDigest));
    StripTrims(id.project);
    StripTrims(id.run);
  }

  /** After the last write the planned snapshot loads if and only if the caller saw to `Commits`; otherwise nothing loads. */
  lemma {:induction false} CommittedLoads(id: Identity, disk: Disk, cmd: Command)
    requires Planned(id, disk, cmd).Some?
    ensures Load(id, AfterLastWrite(id, disk, cmd)) == if Commits(id, disk, cmd) then Planned(id, disk, cmd) else None
    ensures Load(id, AfterLastWrite(id, disk, cmd)) == Planned(id, disk, cmd) <==> Commits(id, disk, cmd)
  {
    hide MakeSnapshot, MakeTransition, ReadLine, RecordSeparators;
    if cmd.Initialize? {
      InitializeIsAccepted(id, disk, cmd);
    } else {
      PlannedAdvance(id, disk, cmd);
      AdvanceIsAccepted(id, disk, cmd);
    }
  }

  /** Between the two writes, or with a torn journal record, nothing loads. */
  lemma {:induction false} BetweenWritesRejects(id: Identity, disk: Disk, cmd: Command, torn: Disk)
    requires Planned(id, disk, cmd).Some?
    ensures Load(id, AfterJournalWrite(id, disk, cmd)).None?
    ensures torn in TornAppends(id, disk, cmd) ==> Load(id, torn).None?
  {
    hide MakeSnapshot, MakeTransition, ReadJournal, RecordSeparators;
    if cmd.Advance? {
      PlannedAdvance(id, disk, cmd);
      AdvanceIsAccepted(id, disk, cmd);
      LoadAgreesWithJournal(id, disk);
      if torn in TornAppends(id, disk, cmd) {
        var n :| n >= 1 && torn == disk.(journal := Some(disk.journal.value + Fragments(n)));
        FragmentsReject(id, disk.journal.value, n);
      }
    }
  }

  /**
   Every crash point of every command: before the first write the old state loads, after the last
   write the planned state loads when the command commits, and everything else is rejected.
   */
  lemma {:induction false} CrashOutcomes(id: Identity, disk: Disk, cmd: Command, left: Disk)
    requires left in CrashPoints(id, disk, cmd)
    ensures left == disk
            || (&& Planned(id, disk, cmd).Some? && Commits(id, disk, cmd) && left == AfterLastWrite(id, disk, cmd)
                && Load(id, left) == Planned(id, disk, cmd))
            || (Planned(id, disk, cmd).Some? && Load(id, left).None?)
  {
    hide Load, Planned, AfterJournalWrite, AfterLastWrite, Commits, TornAppends;
    if Planned(id, disk, cmd).Some? {
      CommittedLoads(id, disk, cmd);
      BetweenWritesRejects(id, disk, cmd, left);
    }
  }

  lemma {:induction false} SeparatorText()
    ensures var s := "a\U{2028}b"; TextOk(s, 512, false) && Strip(s) == s && Separators(s) == 1
  {
    var s := "a\U{2028}b";
    assert Trimmed(s);
    StripTrims(s);
    assert s[1..] == "\U{2028}b" && s[1..][1..] == "b" && s[1..][1..][1..] == "";
    assert !HasLineOrNul("b") && !HasLineOrNul(s[1..]);
    assert Separators("b") == 0 && Separators(s[1..]) == 1;
  }

  /** Where the store loads, a move to a declared state with an acceptable reason is always planned. */
  lemma {:induction false} ReasonIsPlanned(id: Identity, disk: Disk, cmd: Command)
    requires Load(id, disk).Some? && cmd.Advance? && cmd.encodable && cmd.refs.None? && cmd.approval.None? && cmd.manual.None?
    requires !cmd.toState.Undeclared? && TextOk(cmd.reason, 512, false)
    ensures Planned(id, disk, cmd).Some?
    ensures NextEntry(id, disk, cmd).body.transition.reason == Strip(cmd.reason)
  {
    hide TextOk, IdentityOk, NormalRefs, HasDuplicate, ReadJournal, Strip;
    LoadedIsNormal(id, disk);
  }

  /**
   The failing family at work: the constructors accept a reason with U+2028 inside, both files are
   written, and no store operation ever loads this run again (see `RejectionIsFinal`).
   */
  lemma {:induction false} LineSeparatorStrandsRun(id: Identity, plan: string, baseline: string)
    requires Planned(id, Disk(None, None), Initialize(plan, baseline, NEW, true)).Some?
    ensures var begun := AfterLastWrite(id, Disk(None, None), Initialize(plan, baseline, NEW, true));
            var cmd := Advance(INTAKE_READY, "a\U{2028}b", None, None, None, true);
            && Load(id, begun).Some? && Planned(id, begun, cmd).Some?
            && Load(id, AfterLastWrite(id, begun, cmd)).None? && AfterLastWrite(id, begun, cmd) != Disk(None, None)
  {
    var start := Initialize(plan, baseline, NEW, true);
    var begun, reason := AfterLastWrite(id, Disk(None, None), start), "a\U{2028}b";
    var cmd := Advance(INTAKE_READY, reason, None, None, None, true);
    hide Load, MakeSnapshot, MakeTransition, Separators, RefSeparators, Strip, TextOk, NextEntry;
    CommittedLoads(id, Disk(None, None), start);
    SeparatorText();
    ReasonIsPlanned(id, begun, cmd);
    CommittedLoads(id, begun, cmd);
  }

  // ---- Whole histories ----

  /** A history: commands, each with the disk its process left behind. */
  ghost predicate History(id: Identity, disks: seq<Disk>, cmds: seq<Command>) {
    && |disks| == |cmds| + 1
    && forall i :: 0 <= i < |cmds| ==> disks[i + 1] in CrashPoints(id, disks[i], cmds[i])
  }

  /**
   Rejection is final: once some file exists and `load` rejects, no command, crashed or not, changes
   the disk again. The only rejected disk a command can repair is the one with neither file.
   */
  lemma {:induction false} RejectionIsFinal(id: Identity, disks: seq<Disk>, cmds: seq<Command>)
    requires History(id, disks, cmds)
    requires Load(id, disks[0]).None? && disks[0] != Disk(None, None)
    ensures forall i :: 0 <= i < |disks| ==> disks[i] == disks[0]
    decreases |cmds|
  {
    hide MakeSnapshot, MakeTransition, Load, AfterJournalWrite, AfterLastWrite, TornAppends;
    if cmds != [] {
      assert Planned(id, disks[0], cmds[0]).None?;
      assert disks[1] == disks[0];
      forall i | 0 <= i < |cmds[1..]|
        ensures disks[1..][i + 1] in CrashPoints(id, disks[1..][i], cmds[1..][i])
      {
        assert disks[i + 2] in CrashPoints(id, disks[i + 1], cmds[i + 1]);
      }
      RejectionIsFinal(id, disks[1..], cmds[1..]);
      forall i | 0 <= i < |disks|
        ensures disks[i] == disks[0]
      {
        if i > 0 { assert disks[1..][i - 1] == disks[i]; }
      }
    }
  }

  /** The repair of the empty disk is `initialize`, and it loads exactly when its texts can be encoded. */
  lemma {:induction false} EmptyDiskInitializes(id: Identity, cmd: Command)
    ensures Load(id, Disk(None, None)).None?
    ensures Planned(id, Disk(None, None), cmd).Some? ==>
              && cmd.Initialize?
              && Load(id, AfterLastWrite(id, Disk(None, None), cmd)) == if cmd.encodable then Planned(id, Disk(None, None), cmd) else None
  {
    if Planned(id, Disk(None, None), cmd).Some? {
      CommittedLoads(id, Disk(None, None), cmd);
    }
  }

  class AIOfficeStateStore {
    const id: Identity
    var journal: Option<seq<Line>>
    var snapshot: Option<SnapshotFile>
    ghost var trail: seq<Disk>  // the disk after each durable write

    constructor (id: Identity, disk: Disk)
      ensures this.id == id && OnDisk() == disk && trail == []
    {
      this.id := id;
      journal, snapshot, trail := disk.journal, disk.snapshot, [];
    }

    function OnDisk(): Disk
      reads this
    {
      Disk(journal, snapshot)
    }

    /** `_read_journal`: one pass carrying the previous snapshot and record digest. */
    method ReadJournalFile() returns (r: Option<Cursor>)
      ensures r == if journal.None? then None else ReadJournal(id, journal.value)
    {
      if journal.None? { return None; }
      var lines := journal.value;
      var at, i := Start, 0;
      while i < |lines|
        invariant 0 <= i <= |lines|
        invariant ReadJournal(id, lines[..i]) == Some(at)
      {
        var next := ReadLine(id, lines[i], i + 1, at);
        assert lines[..i + 1][..i] == lines[..i];
        if next.None? {
          PrefixRejects(id, lines, i + 1);
          return None;
        }
        at, i := next.value, i + 1;
      }
      assert lines[..i] == lines;
      return Some(at);
    }

    method LoadCurrent() returns (r: Option<Snapshot>)
      ensures r == Load(id, OnDisk())
    {
      var s := ReadSnapshot(id, snapshot);
      if s.None? { return None; }
      var at := ReadJournalFile();
      if at.None? { return None; }
      if at.value.snapshot.None? {
        if s.value.revision != 0 || s.value.lastTransition != NoDigest { return None; }
        return s;
      }
      if s != at.value.snapshot { return None; }
      return s;
    }

    /** `initialize`: journal first, snapshot second; a snapshot without a UTF-8 form raises between the two. */
    method InitializeRun(plan: string, baseline: string, state: WorkflowState, encodable: bool) returns (r: Option<Snapshot>)
      modifies this`journal, this`snapshot, this`trail
      ensures var cmd, planned := Initialize(plan, baseline, state, encodable), Planned(id, old(OnDisk()), Initialize(plan, baseline, state, encodable));
              && r == (if encodable then planned else None)
              && (planned.None? ==> OnDisk() == old(OnDisk()) && trail == old(trail))
              && (planned.Some? ==> && OnDisk() == AfterLastWrite(id, old(OnDisk()), cmd) && Load(id, OnDisk()) == r
                                    && trail == old(trail) + [AfterJournalWrite(id, old(OnDisk()), cmd)] + if encodable then [OnDisk()] else [])
    {
      hide MakeSnapshot, Load;
      if snapshot.Some? || journal.Some? { return None; }
      r := MakeSnapshot(Snapshot(id.project, id.run, 0, state, plan, baseline, [], "", "", NoDigest));
      if r.None? { return; }
      CommittedLoads(id, OnDisk(), Initialize(plan, baseline, state, encodable));
      journal := Some([]);
      trail := trail + [OnDisk()];
      if !encodable { return None; }
      snapshot := Some(Stored(r.value, OfSnapshot(r.value)));
      trail := trail + [OnDisk()];
    }

    /** `transition`: journal append first, snapshot replace second, then the store is loaded again and may refuse. */
    method AdvanceTo(cmd: Command) returns (r: Option<Snapshot>)
      requires cmd.Advance?
      modifies this`journal, this`snapshot, this`trail
      ensures var planned := Planned(id, old(OnDisk()), cmd);
              && (planned.None? ==> r.None? && OnDisk() == old(OnDisk()) && trail == old(trail))
              && (planned.Some? ==> && r == (if Commits(id, old(OnDisk()), cmd) then planned else None) && r == Load(id, OnDisk())
                                    && OnDisk() == AfterLastWrite(id, old(OnDisk()), cmd)
                                    && trail == old(trail) + [AfterJournalWrite(id, old(OnDisk()), cmd), OnDisk()])
    {
      hide MakeSnapshot, MakeTransition, ReadLine, RecordSeparators;
      var current := LoadCurrent();
      if current.None? || !cmd.encodable { return None; }
      var t := NextTransition(id, current.value, cmd.toState, cmd.reason);
      if t.None? { return None; }
      var s := NextSnapshot(id, current.value, cmd, t.value);
      if s.None? { return None; }
      CommittedLoads(id, OnDisk(), cmd);
      var at := ReadJournalFile();
      journal := Some(journal.value + LinesOf(NextRecord(t.value, s.value, at.value.digest)));
      trail := trail + [OnDisk()];
      snapshot := Some(Stored(s.value, OfSnapshot(s.value)));
      trail := trail + [OnDisk()];
      r := LoadCurrent();
    }
  }

  lemma {:induction false} PrefixRejects(id: Identity, lines: seq<Line>, n: nat)
    requires n <= |lines| && ReadJournal(id, lines[..n]).None?
    ensures ReadJournal(id, lines).None?
    decreases |lines| - n
  {
    hide ReadLine;
    if n == |lines| {
      assert lines[..n] == lines;
    } else {
      assert lines[..n + 1][..n] == lines[..n];
      PrefixRejects(id, lines, n + 1);
    }
  }
}
