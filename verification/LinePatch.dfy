/** Line edits on a text file: the single-pass splice, its reference form, and compare-and-swap writing. */
module LinePatch {
  import opened Common
  import opened Text

  /** Replace lines `start` to `end` (1-based, inclusive) by the lines of `replacement`. */
  datatype Edit = Edit(start: int, end: int, replacement: string)

  datatype Code = INPUT_SCHEMA_INVALID | PATH_POLICY_VIOLATION | PATCH_CONFLICT

  function LastEnd(edits: seq<Edit>): int {
    if edits == [] then 0 else edits[|edits| - 1].end
  }

  /** What the edit check raises for `e` when the previous edit ended at `lastEnd`. */
  function EditError(e: Edit, lastEnd: int, lineCount: nat): Option<Code> {
    if e.start < 1 || e.end < e.start then Some(INPUT_SCHEMA_INVALID)
    else if e.start <= lastEnd || e.end > lineCount then Some(PATCH_CONFLICT)
    else None
  }

  /** The first error of an edit list, checked in order. */
  function EditsError(edits: seq<Edit>, lineCount: nat): Option<Code> {
    if edits == [] then None
    else
      var init := edits[..|edits| - 1];
      var earlier := EditsError(init, lineCount);
      if earlier.Some? then earlier else EditError(edits[|edits| - 1], LastEnd(init), lineCount)
  }

  /** Accepted edits: in range, ascending, and not overlapping. */
  predicate Ascending(edits: seq<Edit>, lineCount: nat) {
    && (forall i :: 0 <= i < |edits| ==> 1 <= edits[i].start <= edits[i].end <= lineCount)
    && (forall i, j :: 0 <= i < j < |edits| ==> edits[i].end < edits[j].start)
  }

  /** The check accepts exactly the ascending, non-overlapping, in-range edit lists. */
  lemma {:induction false} AcceptedExactly(edits: seq<Edit>, lineCount: nat)
    ensures EditsError(edits, lineCount).None? <==> Ascending(edits, lineCount)
  {
    if edits != [] {
      var init, last := edits[..|edits| - 1], edits[|edits| - 1];
      AcceptedExactly(init, lineCount);
      assert forall i :: 0 <= i < |init| ==> init[i] == edits[i];
      if Ascending(init, lineCount) && init != [] {
        assert forall i :: 0 <= i < |init| - 1 ==> init[i].end < init[|init| - 1].start;
      }
    }
  }

  /** Edit `i` is the first that does not continue an accepted list: no line range, or one taken or missing. */
  ghost predicate FailsAt(edits: seq<Edit>, i: nat, lineCount: nat, code: Code)
    requires i < |edits|
  {
    && Ascending(edits[..i], lineCount)
    && match code
       case INPUT_SCHEMA_INVALID => edits[i].start < 1 || edits[i].end < edits[i].start
       case PATCH_CONFLICT => && 1 <= edits[i].start <= edits[i].end
                              && (edits[i].end > lineCount || exists k :: 0 <= k < i && edits[i].start <= edits[k].end)
       case PATH_POLICY_VIOLATION => false
  }

  lemma {:induction false} LastFails(edits: seq<Edit>, lineCount: nat, code: Code)
    requires edits != [] && Ascending(edits[..|edits| - 1], lineCount)
    ensures FailsAt(edits, |edits| - 1, lineCount, code) <==>
            EditError(edits[|edits| - 1], LastEnd(edits[..|edits| - 1]), lineCount) == Some(code)
  {
    var init, last := edits[..|edits| - 1], edits[|edits| - 1];
    assert forall k :: 0 <= k < |init| ==> edits[k] == init[k];
    if init != [] {
      assert forall k :: 0 <= k < |init| ==> init[k].end <= LastEnd(init);
      assert edits[|init| - 1].end == LastEnd(init);
    }
  }

  lemma {:induction false} EarlierFits(edits: seq<Edit>, i: nat, lineCount: nat, code: Code)
    requires i < |edits| && Ascending(edits, lineCount)
    ensures !FailsAt(edits, i, lineCount, code)
  {}

  /** The error of a refused list is that of its first failing edit. */
  lemma {:induction false} FirstErrorExactly(edits: seq<Edit>, lineCount: nat, code: Code)
    ensures EditsError(edits, lineCount) == Some(code) <==> exists i :: 0 <= i < |edits| && FailsAt(edits, i, lineCount, code)
  {
    if edits != [] {
      var init := edits[..|edits| - 1];
      FirstErrorExactly(init, lineCount, code);
      AcceptedExactly(init, lineCount);
      forall i | 0 <= i < |init|
        ensures FailsAt(edits, i, lineCount, code) <==> FailsAt(init, i, lineCount, code)
        ensures Ascending(init, lineCount) ==> !FailsAt(init, i, lineCount, code)
      {
        assert init[..i] == edits[..i];
        if Ascending(init, lineCount) { EarlierFits(init, i, lineCount, code); }
      }
      if Ascending(init, lineCount) { LastFails(edits, lineCount, code); }
      assert FailsAt(edits, |init|, lineCount, code) ==> Ascending(init, lineCount);
      hide FailsAt, Ascending;
    }
  }

  /** The splice loop from `cursor` (1-based): copy up to the edit, emit the replacement, skip past it. */
  function Splice(lines: seq<string>, edits: seq<Edit>, cursor: int): seq<string>
    requires Ascending(edits, |lines|) && 1 <= cursor <= |lines| + 1
    requires edits != [] ==> cursor <= edits[0].start
  {
    if edits == [] then lines[cursor - 1..]
    else
      AscendingTail(edits, |lines|);
      lines[cursor - 1..edits[0].start - 1] + SplitLines(edits[0].replacement) + Splice(lines, edits[1..], edits[0].end + 1)
  }

  lemma AscendingTail(edits: seq<Edit>, lineCount: nat)
    requires Ascending(edits, lineCount) && edits != []
    ensures Ascending(edits[1..], lineCount)
    ensures |edits| > 1 ==> edits[0].end + 1 <= edits[1..][0].start
  {}

  // ---- Reference: one edit at a time, last to first ----

  function ApplyOne(lines: seq<string>, e: Edit): seq<string>
    requires 1 <= e.start <= e.end <= |lines|
  {
    lines[..e.start - 1] + SplitLines(e.replacement) + lines[e.end..]
  }

  function ApplyFromLast(lines: seq<string>, edits: seq<Edit>): seq<string>
    requires Ascending(edits, |lines|)
    decreases |edits|
  {
    if edits == [] then lines
    else
      StillAscending(lines, edits);
      ApplyFromLast(ApplyOne(lines, edits[|edits| - 1]), edits[..|edits| - 1])
  }

  lemma StillAscending(lines: seq<string>, edits: seq<Edit>)
    requires Ascending(edits, |lines|) && edits != []
    ensures Ascending(edits[..|edits| - 1], |ApplyOne(lines, edits[|edits| - 1])|)
  {}

  /** One round of the splice. */
  lemma {:induction false} SpliceUnfold(lines: seq<string>, edits: seq<Edit>, cursor: int)
    requires Ascending(edits, |lines|) && edits != [] && 1 <= cursor <= edits[0].start
    ensures Ascending(edits[1..], |lines|) && (|edits| > 1 ==> edits[0].end + 1 <= edits[1..][0].start)
    ensures Splice(lines, edits, cursor) ==
            lines[cursor - 1..edits[0].start - 1] + SplitLines(edits[0].replacement) + Splice(lines, edits[1..], edits[0].end + 1)
  {
    hide SplitLines;
    AscendingTail(edits, |lines|);
  }

  lemma SpliceEnd(lines: seq<string>, cursor: int)
    requires 1 <= cursor <= |lines| + 1
    ensures Splice(lines, [], cursor) == lines[cursor - 1..]
  {}

  lemma {:induction false} SpliceOnly(lines: seq<string>, e: Edit, cursor: int)
    requires 1 <= cursor <= e.start <= e.end <= |lines|
    ensures Splice(lines, [e], cursor) == Splice(ApplyOne(lines, e), [], cursor)
  {
    hide SplitLines;
    SpliceUnfold(lines, [e], cursor);
    assert [e][1..] == [];
    assert ApplyOne(lines, e)[cursor - 1..] == lines[cursor - 1..e.start - 1] + SplitLines(e.replacement) + lines[e.end..];
  }

  /** Applying the last edit first does not disturb the splice of the others. */
  lemma {:induction false} SpliceLast(lines: seq<string>, edits: seq<Edit>, cursor: int)
    requires Ascending(edits, |lines|) && edits != [] && 1 <= cursor <= edits[0].start
    ensures Ascending(edits[..|edits| - 1], |ApplyOne(lines, edits[|edits| - 1])|)
    ensures cursor <= |ApplyOne(lines, edits[|edits| - 1])| + 1
    ensures Splice(lines, edits, cursor) == Splice(ApplyOne(lines, edits[|edits| - 1]), edits[..|edits| - 1], cursor)
    decreases |edits|
  {
    hide SplitLines, Splice;
    var first, last := edits[0], edits[|edits| - 1];
    var lines', init := ApplyOne(lines, last), edits[..|edits| - 1];
    StillAscending(lines, edits);
    if |edits| == 1 {
      assert edits == [last] && init == [];
      SpliceOnly(lines, last, cursor);
    } else {
      SpliceUnfold(lines, edits, cursor);
      SpliceLast(lines, edits[1..], first.end + 1);
      assert edits[1..][..|edits| - 2] == init[1..];
      SpliceUnfold(lines', init, cursor);
      assert lines'[cursor - 1..first.start - 1] == lines[cursor - 1..first.start - 1];
    }
  }

  /** The single-pass splice equals applying the edits one at a time from last to first. */
  lemma {:induction false} SpliceIsSequential(lines: seq<string>, edits: seq<Edit>)
    requires Ascending(edits, |lines|)
    ensures Splice(lines, edits, 1) == ApplyFromLast(lines, edits)
    decreases |edits|
  {
    if edits != [] {
      SpliceLast(lines, edits, 1);
      SpliceIsSequential(ApplyOne(lines, edits[|edits| - 1]), edits[..|edits| - 1]);
    }
  }

  // ---- Line accounting ----

  /** `changed_line_count` */
  function ChangedLines(edits: seq<Edit>): int {
    if edits == [] then 0 else ChangedLines(edits[..|edits| - 1]) + edits[|edits| - 1].end - edits[|edits| - 1].start + 1
  }

  function ReplacementLines(edits: seq<Edit>): nat {
    if edits == [] then 0 else ReplacementLines(edits[..|edits| - 1]) + |SplitLines(edits[|edits| - 1].replacement)|
  }

  /** Conservation: the result has the old lines, minus the changed ones, plus the replacement lines. */
  lemma {:induction false} LineCountConserved(lines: seq<string>, edits: seq<Edit>)
    requires Ascending(edits, |lines|)
    ensures |Splice(lines, edits, 1)| == |lines| - ChangedLines(edits) + ReplacementLines(edits)
    decreases |edits|
  {
    if edits != [] {
      SpliceLast(lines, edits, 1);
      LineCountConserved(ApplyOne(lines, edits[|edits| - 1]), edits[..|edits| - 1]);
    }
  }

  /** How far line `k` moves: the growth of all edits that end before it. */
  function Shift(edits: seq<Edit>, k: int): int {
    if edits == [] then 0
    else
      var e := edits[|edits| - 1];
      Shift(edits[..|edits| - 1], k) + if e.end < k then |SplitLines(e.replacement)| - (e.end - e.start + 1) else 0
  }

  predicate Unedited(edits: seq<Edit>, k: int) {
    forall i :: 0 <= i < |edits| ==> k < edits[i].start || edits[i].end < k
  }

  lemma {:induction false} ShiftLocal(edits: seq<Edit>, k: int, k': int)
    requires forall i :: 0 <= i < |edits| ==> edits[i].end < k && edits[i].end < k'
    ensures Shift(edits, k) == Shift(edits, k')
  {
    if edits != [] { ShiftLocal(edits[..|edits| - 1], k, k'); }
  }

  /** Every line outside the edited ranges is kept, at its old place plus the growth before it. */
  lemma {:induction false} UneditedLinesKept(lines: seq<string>, edits: seq<Edit>, k: int)
    requires Ascending(edits, |lines|) && 1 <= k <= |lines| && Unedited(edits, k)
    ensures 1 <= k + Shift(edits, k) <= |Splice(lines, edits, 1)|
    ensures Splice(lines, edits, 1)[k + Shift(edits, k) - 1] == lines[k - 1]
    decreases |edits|
  {
    hide SplitLines, Splice;
    if edits == [] {
      SpliceEnd(lines, 1);
    } else {
      var init, last := edits[..|edits| - 1], edits[|edits| - 1];
      SpliceLast(lines, edits, 1);
      var lines' := ApplyOne(lines, last);
      assert forall i :: 0 <= i < |init| ==> init[i] == edits[i];
      if last.end < k {
        var k' := k + |SplitLines(last.replacement)| - (last.end - last.start + 1);
        assert lines'[k' - 1] == lines[k - 1];
        UneditedLinesKept(lines', init, k');
        ShiftLocal(init, k, k');
      } else {
        assert lines'[k - 1] == lines[k - 1];
        UneditedLinesKept(lines', init, k);
      }
    }
  }

  /** Unedited lines keep their order. */
  lemma {:induction false} UneditedOrderKept(lines: seq<string>, edits: seq<Edit>, j: int, k: int)
    requires Ascending(edits, |lines|) && 1 <= j < k <= |lines| && Unedited(edits, j) && Unedited(edits, k)
    ensures j + Shift(edits, j) < k + Shift(edits, k)
    decreases |edits|
  {
    if edits != [] {
      var init, last := edits[..|edits| - 1], edits[|edits| - 1];
      var lines' := ApplyOne(lines, last);
      StillAscending(lines, edits);
      assert forall i :: 0 <= i < |init| ==> init[i] == edits[i];
      if last.end < k && j < last.start {
        var grown := k + |SplitLines(last.replacement)| - (last.end - last.start + 1);
        if init == [] {
        } else {
          ShiftLocal(init, k, grown);
          UneditedOrderKept(lines', init, j, grown);
        }
      } else if last.end < j {
        ShiftLocal(init, j, k);
      } else {
        UneditedOrderKept(lines', init, j, k);
      }
    }
  }

  // ---- Re-reading what was written ----

  lemma {:induction false} SpliceSingleLines(lines: seq<string>, edits: seq<Edit>, cursor: int)
    requires Ascending(edits, |lines|) && 1 <= cursor <= |lines| + 1
    requires edits != [] ==> cursor <= edits[0].start
    requires forall i :: 0 <= i < |lines| ==> SingleLine(lines[i])
    ensures forall i :: 0 <= i < |Splice(lines, edits, cursor)| ==> SingleLine(Splice(lines, edits, cursor)[i])
    decreases |edits|
  {
    hide SingleLine, SplitLines;
    if edits != [] {
      AscendingTail(edits, |lines|);
      SpliceSingleLines(lines, edits[1..], edits[0].end + 1);
      var kept, mid, rest := lines[cursor - 1..edits[0].start - 1], SplitLines(edits[0].replacement), Splice(lines, edits[1..], edits[0].end + 1);
      assert forall i :: 0 <= i < |mid| ==> SingleLine(mid[i]);
      assert Splice(lines, edits, cursor) == kept + mid + rest;
    }
  }

  /**
   Splitting the written text gives back the computed lines exactly when a kept final newline has
   some line to end, or no newline is kept and the text does not end in an empty line.
   */
  lemma {:induction false} RereadExactly(original: string, edits: seq<Edit>, final: bool)
    requires Ascending(edits, |SplitLines(original)|)
    ensures var out := Splice(SplitLines(original), edits, 1);
            SplitLines(Joined(out, final)) == out <==> if final then out != [] else out == [] || out[|out| - 1] != ""
  {
    hide SplitLines, Splice, Joined;
    var out := Splice(SplitLines(original), edits, 1);
    SpliceSingleLines(SplitLines(original), edits, 1);
    SplitJoined(out, final);
  }

  // ---- The service ----

  datatype File = Utf8(text: string) | Binary(bytes: string)

  /** SHA-256 of a file's bytes as an ideal digest. */
  datatype Sha = Sha256(file: File)

  datatype WriteResult = WriteResult(before: Option<Sha>, after: Sha)
  datatype PatchResult = PatchResult(before: Sha, after: Sha, changedLines: int)

  /** Outcome of the compare-and-swap preconditions of `write`. */
  function WriteError(current: Option<File>, allowed: bool, expectedAbsent: bool, expected: Option<Sha>): Option<Code> {
    if expectedAbsent && expected.Some? then Some(INPUT_SCHEMA_INVALID)
    else if !allowed then Some(PATH_POLICY_VIOLATION)
    else if current.Some? && (expectedAbsent || expected != Some(Sha256(current.value))) then Some(PATCH_CONFLICT)
    else if current.None? && expected.Some? then Some(PATCH_CONFLICT)
    else None
  }

  /**
   A permitted write replaces a file exactly when the caller named its content, and creates one exactly
   when no content was named; each refusal has its own cause, contradictory expectations first.
   */
  lemma {:induction false} WriteIsCompareAndSwap(current: Option<File>, allowed: bool, expectedAbsent: bool, expected: Option<Sha>)
    ensures var error := WriteError(current, allowed, expectedAbsent, expected);
            && (error.None? <==> allowed && match current case Some(file) => expected == Some(Sha256(file)) && !expectedAbsent case None => expected.None?)
            && (error == Some(INPUT_SCHEMA_INVALID) <==> expectedAbsent && expected.Some?)
            && (error == Some(PATH_POLICY_VIOLATION) <==> !allowed && !(expectedAbsent && expected.Some?))
  {
    match current
    case Some(file) => assert expected == Some(Sha256(file)) ==> expected.Some?;
    case None =>
  }

  /** What `patch` does with a readable UTF-8 file: the new text, or the error. */
  function Patched(file: File, base: Sha, edits: seq<Edit>, finalNewline: Option<bool>): Result<string, Code> {
    if Sha256(file) != base then Err(PATCH_CONFLICT)
    else if file.Binary? then Err(INPUT_SCHEMA_INVALID)
    else
      var lines := SplitLines(file.text);
      match EditsError(edits, |lines|)
      case Some(code) => Err(code)
      case None =>
        AcceptedExactly(edits, |lines|);
        var keep := if finalNewline.Some? then finalNewline.value else file.text != "" && file.text[|file.text| - 1] == '\n';
        Ok(Joined(Splice(lines, edits, 1), keep))
  }

  /** A patch is accepted exactly for the named UTF-8 content and accepted edits, and its text is the sequential one. */
  lemma {:induction false} PatchedExactly(file: File, base: Sha, edits: seq<Edit>, finalNewline: Option<bool>)
    ensures Patched(file, base, edits, finalNewline).Ok? <==> Sha256(file) == base && file.Utf8? && Ascending(edits, |SplitLines(file.text)|)
    ensures Patched(file, base, edits, finalNewline).Ok? ==>
              Patched(file, base, edits, finalNewline).value
              == Joined(ApplyFromLast(SplitLines(file.text), edits),
                        finalNewline == Some(true) || (finalNewline.None? && exists head :: file.text == head + "\n"))
    ensures Sha256(file) == base && file.Binary? ==> Patched(file, base, edits, finalNewline) == Err(INPUT_SCHEMA_INVALID)
    ensures Sha256(file) != base ==> Patched(file, base, edits, finalNewline) == Err(PATCH_CONFLICT)
  {
    hide SplitLines, Splice, Joined, ApplyFromLast;
    if file.Utf8? {
      var text := file.text;
      AcceptedExactly(edits, |SplitLines(text)|);
      if Ascending(edits, |SplitLines(text)|) { SpliceIsSequential(SplitLines(text), edits); }
      if text != "" && text[|text| - 1] == '\n' { assert text == text[..|text| - 1] + "\n"; }
    }
  }

  class FilesystemService {
    var files: map<string, File>

    constructor (files: map<string, File>)
      ensures this.files == files
    {
      this.files := files;
    }

    method Write(path: string, content: string, allowed: bool, expectedAbsent: bool, expected: Option<Sha>) returns (r: Result<WriteResult, Code>)
      modifies this
      ensures var current := if path in old(files) then Some(old(files)[path]) else None;
              match WriteError(current, allowed, expectedAbsent, expected)
              case Some(code) => r == Err(code) && files == old(files)
              case None => files == old(files)[path := Utf8(content)] && r == Ok(WriteResult(expected, Sha256(Utf8(content))))
    {
      if expectedAbsent && expected.Some? { return Err(INPUT_SCHEMA_INVALID); }
      if !allowed { return Err(PATH_POLICY_VIOLATION); }
      var before: Option<Sha> := None;
      if path in files {
        before := Some(Sha256(files[path]));
        if expectedAbsent || expected.None? || before != expected { return Err(PATCH_CONFLICT); }
      } else if expected.Some? {
        return Err(PATCH_CONFLICT);
      }
      files := files[path := Utf8(content)];
      return Ok(WriteResult(before, Sha256(Utf8(content))));
    }

    /** `base` is None when the given hash is malformed. */
    method Patch(path: string, allowed: bool, base: Option<Sha>, edits: seq<Edit>, finalNewline: Option<bool>) returns (r: Result<PatchResult, Code>)
      modifies this
      ensures r.Err? ==> files == old(files)
      ensures base.None? || edits == [] ==> r == Err(INPUT_SCHEMA_INVALID)
      ensures base.Some? && edits != [] && (!allowed || path !in old(files)) ==> r == Err(PATH_POLICY_VIOLATION)
      ensures base.Some? && edits != [] && allowed && path in old(files) ==>
                match Patched(old(files)[path], base.value, edits, finalNewline)
                case Err(code) => r == Err(code)
                case Ok(text) =>
                  && files == old(files)[path := Utf8(text)]
                  && r == Ok(PatchResult(base.value, Sha256(Utf8(text)), ChangedLines(edits)))
    {
      if base.None? || edits == [] { return Err(INPUT_SCHEMA_INVALID); }
      if !allowed || path !in files { return Err(PATH_POLICY_VIOLATION); }
      var file := files[path];
      if Sha256(file) != base.value { return Err(PATCH_CONFLICT); }
      if file.Binary? { return Err(INPUT_SCHEMA_INVALID); }
      var lines := SplitLines(file.text);
      var error := CheckEdits(edits, |lines|);
      if error.Some? { return Err(error.value); }
      AcceptedExactly(edits, |lines|);
      var out := SpliceEdits(lines, edits);
      var keep := if finalNewline.Some? then finalNewline.value else file.text != "" && file.text[|file.text| - 1] == '\n';
      var updated := Joined(out, keep);
      var written := Write(path, updated, allowed, false, base);
      return Ok(PatchResult(base.value, written.value.after, ChangedLines(edits)));
    }
  }

  /** The edit-checking loop. */
  method CheckEdits(edits: seq<Edit>, lineCount: nat) returns (error: Option<Code>)
    ensures error == EditsError(edits, lineCount)
  {
    var lastEnd, i := 0, 0;
    while i < |edits|
      invariant 0 <= i <= |edits|
      invariant EditsError(edits[..i], lineCount).None? && lastEnd == LastEnd(edits[..i])
    {
      assert edits[..i + 1][..i] == edits[..i];
      error := EditError(edits[i], lastEnd, lineCount);
      if error.Some? {
        ErrorPersists(edits, i + 1, lineCount);
        return;
      }
      lastEnd, i := edits[i].end, i + 1;
    }
    assert edits[..i] == edits;
    return None;
  }

  lemma {:induction false} ErrorPersists(edits: seq<Edit>, n: nat, lineCount: nat)
    requires n <= |edits| && EditsError(edits[..n], lineCount).Some?
    ensures EditsError(edits, lineCount) == EditsError(edits[..n], lineCount)
    decreases |edits| - n
  {
    if n == |edits| {
      assert edits[..n] == edits;
    } else {
      assert edits[..n + 1][..n] == edits[..n];
      ErrorPersists(edits, n + 1, lineCount);
    }
  }

  /** The splice loop over accepted edits. */
  method SpliceEdits(lines: seq<string>, edits: seq<Edit>) returns (out: seq<string>)
    requires Ascending(edits, |lines|)
    ensures out == Splice(lines, edits, 1)
  {
    hide SplitLines, Splice;
    assert edits[0..] == edits;
    out := [];
    var cursor, i := 1, 0;
    while i < |edits|
      invariant 0 <= i <= |edits| && 1 <= cursor <= |lines| + 1
      invariant Ascending(edits[i..], |lines|) && (i < |edits| ==> cursor <= edits[i].start)
      invariant out + Splice(lines, edits[i..], cursor) == Splice(lines, edits, 1)
    {
      SpliceUnfold(lines, edits[i..], cursor);
      assert edits[i..][1..] == edits[i + 1..];
      var copied, added := lines[cursor - 1..edits[i].start - 1], SplitLines(edits[i].replacement);
      AppendAssociates(out, copied + added, Splice(lines, edits[i + 1..], edits[i].end + 1));
      AppendAssociates(out, copied, added);
      out := out + copied + added;
      cursor := edits[i].end + 1;
      i := i + 1;
    }
    SpliceEnd(lines, cursor);
    assert edits[i..] == [];
    out := out + lines[cursor - 1..];
  }
}
