/** Python's `str.strip`, `str.splitlines` and `"\n".join`, with the round-trip facts the models need. */
module Text {

  /** Characters `str.strip()` removes. */
  predicate IsSpace(c: char) {
    var n := c as int;
    9 <= n <= 13 || 28 <= n <= 32 || n == 0x85 || n == 0xA0 || n == 0x1680 || 0x2000 <= n <= 0x200A ||
    n == 0x2028 || n == 0x2029 || n == 0x202F || n == 0x205F || n == 0x3000
  }

  /** Characters at which `str.splitlines()` ends a line. */
  predicate IsBreak(c: char) {
    var n := c as int;
    10 <= n <= 13 || 28 <= n <= 30 || n == 0x85 || n == 0x2028 || n == 0x2029
  }

  predicate SingleLine(s: string) {
    forall i :: 0 <= i < |s| ==> !IsBreak(s[i])
  }

  function StripLeft(s: string): string {
    if s != [] && IsSpace(s[0]) then StripLeft(s[1..]) else s
  }

  function StripRight(s: string): string {
    if s != [] && IsSpace(s[|s| - 1]) then StripRight(s[..|s| - 1]) else s
  }

  function Strip(s: string): string {
    StripRight(StripLeft(s))
  }

  /** No white space at either end: exactly the strings `strip` leaves alone. */
  predicate Trimmed(s: string) {
    s == [] || (!IsSpace(s[0]) && !IsSpace(s[|s| - 1]))
  }

  lemma {:induction false} StripRightStarts(s: string)
    requires s != [] && !IsSpace(s[0])
    ensures StripRight(s) != [] && StripRight(s)[0] == s[0] && Trimmed(StripRight(s))
    decreases |s|
  {
    if IsSpace(s[|s| - 1]) {
      StripRightStarts(s[..|s| - 1]);
    }
  }

  lemma {:induction false} StripLeftStarts(s: string)
    ensures StripLeft(s) == [] || !IsSpace(StripLeft(s)[0])
    decreases |s|
  {
    if s != [] && IsSpace(s[0]) {
      StripLeftStarts(s[1..]);
    }
  }

  lemma {:induction false} StripTrims(s: string)
    ensures Trimmed(Strip(s)) && Strip(Strip(s)) == Strip(s)
    ensures Trimmed(s) ==> Strip(s) == s
  {
    StripLeftStarts(s);
    if StripLeft(s) != [] {
      StripRightStarts(StripLeft(s));
    }
  }

  lemma {:induction false} StripLeftIsSlice(s: string) returns (i: nat)
    ensures i <= |s| && StripLeft(s) == s[i..]
    decreases |s|
  {
    if s != [] && IsSpace(s[0]) {
      var k := StripLeftIsSlice(s[1..]);
      i := k + 1;
      assert s[1..][k..] == s[i..];
    } else {
      i := 0;
    }
  }

  lemma {:induction false} StripRightIsSlice(s: string) returns (j: nat)
    ensures j <= |s| && StripRight(s) == s[..j]
    decreases |s|
  {
    if s != [] && IsSpace(s[|s| - 1]) {
      j := StripRightIsSlice(s[..|s| - 1]);
      assert s[..|s| - 1][..j] == s[..j];
    } else {
      j := |s|;
    }
  }

  /** Stripping cuts out one stretch of the text. */
  lemma {:induction false} StripIsSlice(s: string) returns (i: nat, j: nat)
    ensures i <= j <= |s| && Strip(s) == s[i..j]
  {
    i := StripLeftIsSlice(s);
    var n := StripRightIsSlice(s[i..]);
    j := i + n;
    assert s[i..][..n] == s[i..j];
  }

  /** One leading blank, as in "- value" and "key: value", disappears again. */
  lemma {:induction false} StripLeadingBlank(s: string)
    requires Trimmed(s)
    ensures Strip(" " + s) == s
  {
    assert (" " + s)[1..] == s;
    StripTrims(s);
  }

  /** Length of the first line of `s`, without its line break. */
  function LineEnd(s: string): (n: nat)
    ensures n <= |s|
    ensures forall i :: 0 <= i < n ==> !IsBreak(s[i])
    ensures n < |s| ==> IsBreak(s[n])
  {
    if s == [] || IsBreak(s[0]) then 0 else 1 + LineEnd(s[1..])
  }

  /** Length of the line break at `n`: carriage return and line feed count as one. */
  function BreakLength(s: string, n: nat): nat
    requires n < |s|
  {
    if s[n] == '\r' && n + 1 < |s| && s[n + 1] == '\n' then 2 else 1
  }

  function SplitLines(s: string): (lines: seq<string>)
    ensures forall i :: 0 <= i < |lines| ==> SingleLine(lines[i])
    decreases |s|
  {
    if s == [] then []
    else
      var n := LineEnd(s);
      if n == |s| then [s] else [s[..n]] + SplitLines(s[n + BreakLength(s, n)..])
  }

  /** `"\n".join(lines)`, with a final newline when `final` is set. */
  function Joined(lines: seq<string>, final: bool): string {
    if lines == [] then if final then "\n" else ""
    else if |lines| == 1 then lines[0] + if final then "\n" else ""
    else lines[0] + "\n" + Joined(lines[1..], final)
  }

  lemma {:induction false} SplitFirst(line: string, rest: string)
    requires SingleLine(line)
    ensures SplitLines(line + "\n" + rest) == [line] + SplitLines(rest)
  {
    var s := line + "\n" + rest;
    var n := LineEnd(s);
    assert s[|line|] == '\n';
    assert forall i :: 0 <= i < |line| ==> s[i] == line[i];
    assert s[..n] == line;
    assert s[n + 1..] == rest;
  }

  lemma {:induction false} SplitWhole(line: string)
    requires SingleLine(line)
    ensures SplitLines(line) == if line == "" then [] else [line]
  {
    if line != "" {
      assert LineEnd(line) == |line|;
    }
  }

  /** The lines `splitlines` recovers from joined lines. */
  function Recovered(lines: seq<string>, final: bool): seq<string> {
    if lines == [] then if final then [""] else []
    else if !final && lines[|lines| - 1] == "" then lines[..|lines| - 1]
    else lines
  }

  lemma {:induction false} SplitJoinedOne(line: string, final: bool)
    requires SingleLine(line)
    ensures SplitLines(Joined([line], final)) == Recovered([line], final)
  {
    if final {
      assert Joined([line], final) == line + "\n" + "";
      SplitFirst(line, "");
      assert [line] + SplitLines("") == [line];
    } else {
      assert Joined([line], final) == line;
      SplitWhole(line);
    }
  }

  lemma {:induction false} SplitNothing(final: bool)
    ensures SplitLines(Joined([], final)) == Recovered([], final)
  {
    SplitJoinedOne("", final);
  }

  /** What `splitlines` makes of joined lines, in every case. */
  lemma {:induction false} SplitJoined(lines: seq<string>, final: bool)
    requires forall i :: 0 <= i < |lines| ==> SingleLine(lines[i])
    ensures SplitLines(Joined(lines, final)) == Recovered(lines, final)
    decreases |lines|
  {
    hide SplitLines, SingleLine;
    if lines == [] {
      SplitNothing(final);
    } else if |lines| == 1 {
      assert lines == [lines[0]];
      SplitJoinedOne(lines[0], final);
    } else {
      var rest := lines[1..];
      SplitJoined(rest, final);
      SplitFirst(lines[0], Joined(rest, final));
      assert Joined(lines, final) == lines[0] + "\n" + Joined(rest, final);
      assert [lines[0]] + Recovered(rest, final) == Recovered(lines, final);
    }
  }

  // ---- Text that may hold line breaks of its own ----

  /** The lines that `s` takes up when it is printed in front of a newline: at least one. */
  function Physical(s: string): seq<string> {
    SplitLines(s + "\n")
  }

  function PhysicalAll(lines: seq<string>): seq<string> {
    if lines == [] then [] else Physical(lines[0]) + PhysicalAll(lines[1..])
  }

  /** Where the text behind the first line of `s` starts. */
  function NextLine(s: string): (m: nat)
    requires LineEnd(s) < |s|
    ensures LineEnd(s) < m <= |s|
  {
    LineEnd(s) + BreakLength(s, LineEnd(s))
  }

  lemma {:induction false} SplitStep(s: string, line: string, next: string)
    requires LineEnd(s) < |s| && line == s[..LineEnd(s)] && next == s[NextLine(s)..]
    ensures SplitLines(s) == [line] + SplitLines(next)
  {
    hide LineEnd, IsBreak;
  }

  lemma {:induction false} SameFirstLine(t: string, rest: string)
    requires t != "" && t[|t| - 1] == '\n'
    ensures LineEnd(t) < |t| && LineEnd(t + rest) == LineEnd(t) && NextLine(t + rest) == NextLine(t)
  {
    assert forall i :: 0 <= i < |t| ==> (t + rest)[i] == t[i];
    assert IsBreak(t[|t| - 1]);
  }

  lemma {:induction false} SliceAppend(t: string, rest: string, n: nat, m: nat)
    requires n <= |t| && m <= |t|
    ensures (t + rest)[..n] == t[..n] && (t + rest)[m..] == t[m..] + rest
    ensures m < |t| ==> t[m..] != "" && t[m..][|t[m..]| - 1] == t[|t| - 1]
  {}

  /** Behind a newline the lines start afresh. */
  lemma {:induction false} SplitAfterNewline(t: string, rest: string)
    requires t != "" && t[|t| - 1] == '\n'
    ensures SplitLines(t + rest) == SplitLines(t) + SplitLines(rest)
    decreases |t|, 0
  {
    hide SplitLines, LineEnd, NextLine, IsBreak;
    SameFirstLine(t, rest);
    var n, m := LineEnd(t), NextLine(t);
    SliceAppend(t, rest, n, m);
    var line, next := t[..n], t[m..];
    SplitStep(t, line, next);
    SplitStep(t + rest, line, next + rest);
    SplitRest(next, rest);
  }

  lemma {:induction false} SplitRest(next: string, rest: string)
    requires next != "" ==> next[|next| - 1] == '\n'
    ensures SplitLines(next + rest) == SplitLines(next) + SplitLines(rest)
    decreases |next|, 1
  {
    if next == "" {
      assert next + rest == rest;
    } else {
      SplitAfterNewline(next, rest);
    }
  }

  /** `splitlines` on joined lines, whatever breaks they hold. */
  lemma {:induction false} SplitJoinedPhysical(lines: seq<string>)
    requires lines != []
    ensures SplitLines(Joined(lines, true)) == PhysicalAll(lines)
    decreases |lines|
  {
    hide SplitLines;
    if |lines| == 1 {
      assert Joined(lines, true) == lines[0] + "\n" && lines[1..] == [];
      assert PhysicalAll(lines) == Physical(lines[0]) + [];
    } else {
      SplitJoinedPhysical(lines[1..]);
      assert Joined(lines, true) == (lines[0] + "\n") + Joined(lines[1..], true);
      SplitAfterNewline(lines[0] + "\n", Joined(lines[1..], true));
    }
  }

  lemma AppendAssociates<T>(a: seq<T>, b: seq<T>, c: seq<T>)
    ensures a + (b + c) == a + b + c
  {}

  lemma {:induction false} PhysicalAppend(a: seq<string>, b: seq<string>)
    ensures PhysicalAll(a + b) == PhysicalAll(a) + PhysicalAll(b)
  {
    hide Physical;
    if a == [] {
      assert a + b == b;
    } else {
      PhysicalAppend(a[1..], b);
      assert (a + b)[1..] == a[1..] + b && (a + b)[0] == a[0];
      AppendAssociates(Physical(a[0]), PhysicalAll(a[1..]), PhysicalAll(b));
    }
  }

  lemma {:induction false} PhysicalSingle(s: string)
    requires SingleLine(s)
    ensures Physical(s) == [s]
  {
    SplitFirst(s, "");
    assert s + "\n" + "" == s + "\n";
    assert [s] + SplitLines("") == [s];
  }

  lemma {:induction false} PhysicalAllSingle(lines: seq<string>)
    requires forall i :: 0 <= i < |lines| ==> SingleLine(lines[i])
    ensures PhysicalAll(lines) == lines
  {
    hide Physical;
    if lines != [] {
      PhysicalSingle(lines[0]);
      PhysicalAllSingle(lines[1..]);
      assert lines == [lines[0]] + lines[1..];
    }
  }

  lemma {:induction false} PhysicalLinesSingle(lines: seq<string>)
    ensures forall i :: 0 <= i < |PhysicalAll(lines)| ==> SingleLine(PhysicalAll(lines)[i])
  {
    if lines != [] { PhysicalLinesSingle(lines[1..]); }
  }

  predicate StartsWith(s: string, prefix: string) {
    |prefix| <= |s| && s[..|prefix|] == prefix
  }
}
