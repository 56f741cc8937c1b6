/**
 The tab and trailing-whitespace checks of utils/check-style-clang-format.py.

 Both read the lines of a file, may rewrite some of them, and write the file back.  The tab check
 leaves alone the lines between a clang-format off guard and the next on guard.  Expanding a tab can
 turn an ordinary line into a guard, so that a second pass sees other guards than the first.
 */
module StyleFixers {

  const GUARD_ON := "// clang-format on"
  const GUARD_OFF := "// clang-format off"
  const TAB_SIZE := 4

  // ----- text files: universal newlines, readlines, writelines

  /** What reading in text mode makes of a file: each of CR LF, CR and LF is one LF. */
  function Translate(raw: string): string
    decreases |raw|
  {
    if raw == [] then []
    else if raw[0] == '\r' then
      ['\n'] + Translate(if |raw| > 1 && raw[1] == '\n' then raw[2..] else raw[1..])
    else [raw[0]] + Translate(raw[1..])
  }

  /** The lines of a text, each with its LF; the last line may have none. */
  function Split(text: string): seq<string> {
    if text == [] then []
    else
      var rest := Split(text[1..]);
      if text[0] == '\n' || rest == [] then [[text[0]]] + rest
      else [[text[0]] + rest[0]] + rest[1..]
  }

  function ReadLines(raw: string): seq<string> {
    Split(Translate(raw))
  }

  function WriteLines(lines: seq<string>): string {
    if lines == [] then [] else lines[0] + WriteLines(lines[1..])
  }

  /** Not empty, and neither CR nor LF except for an LF at the end. */
  ghost predicate IsLine(line: string) {
    && line != []
    && forall i :: 0 <= i < |line| ==> line[i] != '\r' && (line[i] == '\n' ==> i == |line| - 1)
  }

  ghost predicate Ended(line: string) {
    line != [] && line[|line| - 1] == '\n'
  }

  ghost predicate AreLines(lines: seq<string>) {
    && (forall i :: 0 <= i < |lines| ==> IsLine(lines[i]))
    && (forall i :: 0 <= i < |lines| - 1 ==> Ended(lines[i]))
  }

  lemma {:induction false} TranslateClean(raw: string)
    ensures '\r' !in Translate(raw)
    decreases |raw|
  {
    if raw == [] {
    } else if raw[0] == '\r' {
      TranslateClean(if |raw| > 1 && raw[1] == '\n' then raw[2..] else raw[1..]);
    } else {
      TranslateClean(raw[1..]);
    }
  }

  lemma {:induction false} TranslateNothing(text: string)
    requires '\r' !in text
    ensures Translate(text) == text
  {
    if text == [] {
    } else {
      TranslateNothing(text[1..]);
    }
  }

  /** A character in front of some lines begins the first one, or is a line of its own. */
  lemma OneMoreCharacter(c: char, rest: seq<string>)
    requires c != '\r' && AreLines(rest)
    ensures c == '\n' || rest == [] ==> AreLines([[c]] + rest)
    ensures c != '\n' && rest != [] ==> AreLines([[c] + rest[0]] + rest[1..])
  {
    if c != '\n' && rest != [] {
      var lines := [[c] + rest[0]] + rest[1..];
      assert IsLine(rest[0]);
      assert Ended(rest[0]) ==> Ended(lines[0]);
      assert forall i :: 0 < i < |lines| ==> lines[i] == rest[i];
    }
  }

  lemma {:induction false} SplitLines(text: string)
    requires '\r' !in text
    ensures AreLines(Split(text))
  {
    if text == [] {
    } else {
      SplitLines(text[1..]);
      OneMoreCharacter(text[0], Split(text[1..]));
    }
  }

  lemma {:induction false} SplitLine(line: string, rest: string)
    requires IsLine(line) && (Ended(line) || rest == [])
    ensures Split(line + rest) == [line] + Split(rest)
  {
    assert (line + rest)[1..] == line[1..] + rest;
    if |line| > 1 {
      SplitLine(line[1..], rest);
      assert [line[0]] + line[1..] == line;
    } else {
      assert line[1..] == [] && [line[0]] == line;
      assert line[1..] + rest == rest;
    }
  }

  lemma {:induction false} SplitWritten(lines: seq<string>)
    requires AreLines(lines)
    ensures '\r' !in WriteLines(lines) && Split(WriteLines(lines)) == lines
  {
    if lines == [] {
    } else {
      assert IsLine(lines[0]);
      assert AreLines(lines[1..]);
      SplitWritten(lines[1..]);
      assert |lines| > 1 ==> Ended(lines[0]);
      SplitLine(lines[0], WriteLines(lines[1..]));
    }
  }

  /** Reading gives proper lines, and reading back what was written gives the lines written. */
  lemma ReadWritten(lines: seq<string>)
    requires AreLines(lines)
    ensures ReadLines(WriteLines(lines)) == lines
  {
    SplitWritten(lines);
    TranslateNothing(WriteLines(lines));
  }

  lemma ReadGivesLines(raw: string)
    ensures AreLines(ReadLines(raw))
  {
    TranslateClean(raw);
    SplitLines(Translate(raw));
  }

  // ----- strip and expandtabs

  /** str.isspace for one character. */
  predicate IsSpace(c: char) {
    var n := c as int;
    || 9 <= n <= 13 || 28 <= n <= 32 || n == 0x85 || n == 0xA0 || n == 0x1680 || 0x2000 <= n <= 0x200A
    || n == 0x2028 || n == 0x2029 || n == 0x202F || n == 0x205F || n == 0x3000
  }

  function Rstrip(s: string): string {
    if s != [] && IsSpace(s[|s| - 1]) then Rstrip(s[..|s| - 1]) else s
  }

  function Lstrip(s: string): string {
    if s != [] && IsSpace(s[0]) then Lstrip(s[1..]) else s
  }

  function Strip(s: string): string {
    Lstrip(Rstrip(s))
  }

  function Spaces(n: nat): string {
    seq(n, _ => ' ')
  }

  function TabWidth(col: nat): nat {
    TAB_SIZE - col % TAB_SIZE
  }

  function NextCol(c: char, col: nat): nat {
    if c == '\t' then col + TabWidth(col) else if c == '\n' || c == '\r' then 0 else col + 1
  }

  /** str.expandtabs from a column on. */
  function Expand(s: string, col: nat): string {
    if s == [] then []
    else (if s[0] == '\t' then Spaces(TabWidth(col)) else [s[0]]) + Expand(s[1..], NextCol(s[0], col))
  }

  function ExpandTabs(s: string): string {
    Expand(s, 0)
  }

  ghost function ColAfter(s: string, col: nat): nat {
    if s == [] then col else ColAfter(s[1..], NextCol(s[0], col))
  }

  ghost predicate AllSpace(s: string) {
    forall i :: 0 <= i < |s| ==> IsSpace(s[i])
  }

  ghost predicate Solid(s: string) {
    s != [] && !IsSpace(s[0]) && !IsSpace(s[|s| - 1])
  }

  lemma {:induction false} ExpandConcat(a: string, b: string, col: nat)
    ensures Expand(a + b, col) == Expand(a, col) + Expand(b, ColAfter(a, col))
  {
    if a == [] {
      assert a + b == b;
    } else {
      assert (a + b)[1..] == a[1..] + b;
      ExpandConcat(a[1..], b, NextCol(a[0], col));
    }
  }

  lemma {:induction false} ExpandNoTabs(s: string, col: nat)
    ensures '\t' !in Expand(s, col)
    ensures '\t' !in s ==> Expand(s, col) == s
  {
    if s == [] {
    } else {
      ExpandNoTabs(s[1..], NextCol(s[0], col));
    }
  }

  lemma {:induction false} ExpandAllSpace(s: string, col: nat)
    requires AllSpace(s)
    ensures AllSpace(Expand(s, col))
  {
    if s == [] {
    } else {
      ExpandAllSpace(s[1..], NextCol(s[0], col));
    }
  }

  lemma {:induction false} ExpandKeepsLine(s: string, col: nat)
    requires IsLine(s)
    ensures IsLine(Expand(s, col)) && (Ended(Expand(s, col)) <==> Ended(s))
  {
    if |s| > 1 {
      assert IsLine(s[1..]);
      ExpandKeepsLine(s[1..], NextCol(s[0], col));
    } else {
      assert s[1..] == [];
    }
  }

  lemma {:induction false} RstripSplits(s: string) returns (after: string)
    ensures s == Rstrip(s) + after && AllSpace(after)
    ensures Rstrip(s) != [] ==> !IsSpace(Rstrip(s)[|Rstrip(s)| - 1])
  {
    if s != [] && IsSpace(s[|s| - 1]) {
      after := RstripSplits(s[..|s| - 1]);
      after := after + [s[|s| - 1]];
    } else {
      after := [];
    }
  }

  lemma {:induction false} LstripSplits(s: string) returns (before: string)
    ensures s == before + Lstrip(s) && AllSpace(before)
    ensures Lstrip(s) != [] ==> !IsSpace(Lstrip(s)[0])
  {
    if s != [] && IsSpace(s[0]) {
      before := LstripSplits(s[1..]);
      before := [s[0]] + before;
    } else {
      before := [];
    }
  }

  lemma {:induction false} RstripOf(s: string, after: string)
    requires AllSpace(after) && (s == [] || !IsSpace(s[|s| - 1]))
    ensures Rstrip(s + after) == s
  {
    if after == [] {
      assert s + after == s;
    } else {
      var m := |after| - 1;
      assert (s + after)[..|s + after| - 1] == s + after[..m];
      RstripOf(s, after[..m]);
    }
  }

  lemma {:induction false} LstripOf(before: string, s: string)
    requires AllSpace(before) && (s == [] || !IsSpace(s[0]))
    ensures Lstrip(before + s) == s
  {
    if before == [] {
      assert before + s == s;
    } else {
      assert (before + s)[1..] == before[1..] + s;
      LstripOf(before[1..], s);
    }
  }

  /** strip finds a solid core however much space surrounds it. */
  lemma StripOf(before: string, core: string, after: string)
    requires AllSpace(before) && AllSpace(after) && Solid(core)
    ensures Strip(before + core + after) == core
  {
    RstripOf(before + core, after);
    LstripOf(before, core);
  }

  lemma StripSplits(s: string) returns (before: string, after: string)
    requires Strip(s) != []
    ensures s == before + Strip(s) + after && AllSpace(before) && AllSpace(after)
  {
    after := RstripSplits(s);
    before := LstripSplits(Rstrip(s));
  }

  // ----- the guards

  predicate IsOn(line: string) {
    Strip(line) == GUARD_ON
  }

  predicate IsOff(line: string) {
    Strip(line) == GUARD_OFF
  }

  function NextEnabled(enabled: bool, line: string): bool {
    if IsOn(line) then true else if IsOff(line) then false else enabled
  }

  /** Whether formatting is enabled before line i, or behind the last line for i == |lines|. */
  function EnabledAt(lines: seq<string>, i: nat): bool
    requires i <= |lines|
  {
    if i == 0 then true else NextEnabled(EnabledAt(lines, i - 1), lines[i - 1])
  }

  /** Whether the check looks for tabs in line i: it does so in guard lines even when disabled. */
  predicate Checked(lines: seq<string>, i: nat)
    requires i < |lines|
  {
    EnabledAt(lines, i + 1) || IsOn(lines[i]) || IsOff(lines[i])
  }

  // ----- the fixers on lines

  function FixTabsAt(lines: seq<string>, i: nat): string
    requires i < |lines|
  {
    if Checked(lines, i) then ExpandTabs(lines[i]) else lines[i]
  }

  function FixTabs(lines: seq<string>): seq<string> {
    seq(|lines|, i requires 0 <= i < |lines| => FixTabsAt(lines, i))
  }

  /** The tab check has nothing to say about line i. */
  ghost predicate Clean(lines: seq<string>, i: nat)
    requires i < |lines|
  {
    Checked(lines, i) ==> '\t' !in lines[i]
  }

  ghost predicate NoTabs(lines: seq<string>) {
    forall i :: 0 <= i < |lines| ==> Clean(lines, i)
  }

  function Trim(line: string): string {
    Rstrip(line) + "\n"
  }

  function TrimAll(lines: seq<string>): seq<string> {
    seq(|lines|, i requires 0 <= i < |lines| => Trim(lines[i]))
  }

  ghost predicate Trimmed(line: string) {
    Trim(line) == line
  }

  ghost predicate AllTrimmed(lines: seq<string>) {
    forall i :: 0 <= i < |lines| ==> Trimmed(lines[i])
  }

  // ----- the tab fixer runs again

  /** Expanding tabs never undoes a guard; it can make one. */
  lemma GuardSurvives(line: string, guard: string)
    requires Solid(guard) && '\t' !in guard && Strip(line) == guard
    ensures Strip(ExpandTabs(line)) == guard
  {
    var before, after := StripSplits(line);
    var col := ColAfter(before, 0);
    ExpandConcat(before, guard + after, 0);
    ExpandConcat(guard, after, col);
    assert before + (guard + after) == line;
    ExpandAllSpace(before, 0);
    ExpandAllSpace(after, ColAfter(guard, col));
    ExpandNoTabs(guard, col);
    var after' := Expand(after, ColAfter(guard, col));
    StripOf(Expand(before, 0), guard, after');
    assert ExpandTabs(line) == Expand(before, 0) + guard + after';
  }

  /** Wherever the second pass has formatting enabled, the first pass had it enabled too. */
  lemma {:induction false} SecondPassEnabled(lines: seq<string>, i: nat)
    requires i <= |lines|
    ensures EnabledAt(FixTabs(lines), i) ==> EnabledAt(lines, i)
  {
    if i == 0 {
    } else {
      SecondPassEnabled(lines, i - 1);
      NextStaysEnabled(EnabledAt(lines, i - 1), EnabledAt(FixTabs(lines), i - 1), lines[i - 1]);
      assert FixTabs(lines)[i - 1] == FixTabsAt(lines, i - 1);
    }
  }

  /** One line, with the guard states of the two passes before it. */
  lemma NextStaysEnabled(first: bool, second: bool, line: string)
    requires second ==> first
    ensures var enabled := NextEnabled(first, line);
      var fixed := if enabled || IsOn(line) || IsOff(line) then ExpandTabs(line) else line;
      NextEnabled(second, fixed) ==> enabled
  {
    if IsOff(line) {
      GuardSurvives(line, GUARD_OFF);
    }
  }

  /** The second pass checks a subset of the lines, all of them free of tabs. */
  lemma FixedHasNoTabs(lines: seq<string>)
    ensures NoTabs(FixTabs(lines))
    ensures forall i :: 0 <= i < |lines| && EnabledAt(FixTabs(lines), i + 1) ==> Checked(lines, i)
  {
    var fixed := FixTabs(lines);
    forall i | 0 <= i < |lines|
      ensures EnabledAt(fixed, i + 1) ==> Checked(lines, i)
      ensures Clean(fixed, i)
    {
      SecondPassEnabled(lines, i + 1);
      ExpandNoTabs(lines[i], 0);
    }
  }

  /** Nothing to report means nothing to rewrite. */
  lemma NoTabsNoChange(lines: seq<string>)
    ensures NoTabs(lines) <==> FixTabs(lines) == lines
  {
    forall i | 0 <= i < |lines| ensures Clean(lines, i) <==> FixTabs(lines)[i] == lines[i] {
      ExpandNoTabs(lines[i], 0);
    }
  }

  lemma FixTabsKeepsLines(lines: seq<string>)
    requires AreLines(lines)
    ensures AreLines(FixTabs(lines))
  {
    forall i | 0 <= i < |lines|
      ensures IsLine(FixTabs(lines)[i]) && (Ended(FixTabs(lines)[i]) <==> Ended(lines[i]))
    {
      assert IsLine(lines[i]);
      ExpandKeepsLine(lines[i], 0);
    }
  }

  // ----- the whitespace fixer runs again

  lemma TrimEnds(line: string)
    requires IsLine(line)
    ensures IsLine(Trim(line)) && Ended(Trim(line))
    ensures Trim(Trim(line)) == Trim(line)
  {
    var after := RstripSplits(line);
    var core := Rstrip(line);
    forall i | 0 <= i < |core| ensures core[i] != '\r' && core[i] != '\n' {
      assert core[i] == line[i];
    }
    RstripOf(core, "\n");
  }

  lemma TrimAllKeepsLines(lines: seq<string>)
    requires AreLines(lines)
    ensures AreLines(TrimAll(lines)) && AllTrimmed(TrimAll(lines))
  {
    forall i | 0 <= i < |lines|
      ensures IsLine(TrimAll(lines)[i]) && Ended(TrimAll(lines)[i])
      ensures Trim(TrimAll(lines)[i]) == TrimAll(lines)[i]
    {
      assert IsLine(lines[i]);
      TrimEnds(lines[i]);
    }
  }

  lemma TrimmedNoChange(lines: seq<string>)
    ensures AllTrimmed(lines) <==> TrimAll(lines) == lines
  {
    if TrimAll(lines) == lines {
      forall i | 0 <= i < |lines| ensures Trimmed(lines[i]) {
        assert TrimAll(lines)[i] == lines[i];
      }
    }
  }

  // ----- the two fixers together

  lemma TrimKeepsStrip(line: string)
    ensures Strip(Trim(line)) == Strip(line)
  {
    var after := RstripSplits(line);
    RstripOf(Rstrip(line), "\n");
  }

  lemma TrimKeepsNext(enabled: bool, line: string)
    ensures NextEnabled(enabled, Trim(line)) == NextEnabled(enabled, line)
  {
    TrimKeepsStrip(line);
  }

  lemma {:induction false} TrimKeepsGuards(lines: seq<string>, i: nat)
    requires i <= |lines|
    ensures EnabledAt(TrimAll(lines), i) == EnabledAt(lines, i)
  {
    if i == 0 {
    } else {
      TrimKeepsGuards(lines, i - 1);
      assert TrimAll(lines)[i - 1] == Trim(lines[i - 1]);
      TrimKeepsNext(EnabledAt(lines, i - 1), lines[i - 1]);
    }
  }

  lemma {:induction false} ExpandEndsSolid(s: string, col: nat)
    requires s != [] && !IsSpace(s[|s| - 1])
    ensures Expand(s, col) != [] && !IsSpace(Expand(s, col)[|Expand(s, col)| - 1])
  {
    if |s| == 1 {
      assert s[1..] == [];
    } else {
      ExpandEndsSolid(s[1..], NextCol(s[0], col));
    }
  }

  /** Expanding and trimming one line, in either order. */
  lemma TrimExpandLine(line: string)
    ensures Trim(ExpandTabs(line)) == ExpandTabs(Trim(line))
  {
    var core := Rstrip(line);
    var after := RstripSplits(line);
    ExpandConcat(core, after, 0);
    ExpandConcat(core, "\n", 0);
    ExpandAllSpace(after, ColAfter(core, 0));
    ExpandNoTabs("\n", ColAfter(core, 0));
    if core != [] {
      ExpandEndsSolid(core, 0);
    }
    RstripOf(Expand(core, 0), Expand(after, ColAfter(core, 0)));
  }

  lemma SameChecked(lines: seq<string>, i: nat)
    requires i < |lines|
    ensures Checked(TrimAll(lines), i) == Checked(lines, i)
  {
    TrimKeepsGuards(lines, i + 1);
    TrimKeepsStrip(lines[i]);
  }

  lemma LinesCommute(lines: seq<string>)
    ensures TrimAll(FixTabs(lines)) == FixTabs(TrimAll(lines))
  {
    forall i | 0 <= i < |lines| ensures TrimAll(FixTabs(lines))[i] == FixTabs(TrimAll(lines))[i] {
      SameChecked(lines, i);
      TrimExpandLine(lines[i]);
    }
  }

  // ----- on whole files

  /** What the tab check with `fix` leaves of a file: it writes only if it found something. */
  ghost function TabsFixed(raw: string): string {
    var lines := ReadLines(raw);
    if NoTabs(lines) then raw else WriteLines(FixTabs(lines))
  }

  ghost function SpaceFixed(raw: string): string {
    var lines := ReadLines(raw);
    if AllTrimmed(lines) then raw else WriteLines(TrimAll(lines))
  }

  lemma LinesAfterTabs(raw: string)
    ensures ReadLines(TabsFixed(raw)) == FixTabs(ReadLines(raw))
  {
    ReadGivesLines(raw);
    FixTabsKeepsLines(ReadLines(raw));
    ReadWritten(FixTabs(ReadLines(raw)));
    NoTabsNoChange(ReadLines(raw));
  }

  lemma LinesAfterSpace(raw: string)
    ensures ReadLines(SpaceFixed(raw)) == TrimAll(ReadLines(raw))
  {
    ReadGivesLines(raw);
    TrimAllKeepsLines(ReadLines(raw));
    ReadWritten(TrimAll(ReadLines(raw)));
    TrimmedNoChange(ReadLines(raw));
  }

  /** What is written has plain line ends, whatever those of the file were. */
  lemma TabsWritten(raw: string)
    ensures '\r' !in WriteLines(FixTabs(ReadLines(raw)))
  {
    ReadGivesLines(raw);
    FixTabsKeepsLines(ReadLines(raw));
    SplitWritten(FixTabs(ReadLines(raw)));
  }

  lemma SpaceWritten(raw: string)
    ensures '\r' !in WriteLines(TrimAll(ReadLines(raw)))
  {
    ReadGivesLines(raw);
    TrimAllKeepsLines(ReadLines(raw));
    SplitWritten(TrimAll(ReadLines(raw)));
  }

  /** A second tab check accepts what the first one wrote, and leaves it as it is. */
  lemma TabsFixedOnce(raw: string)
    ensures NoTabs(ReadLines(TabsFixed(raw))) && TabsFixed(TabsFixed(raw)) == TabsFixed(raw)
  {
    LinesAfterTabs(raw);
    FixedHasNoTabs(ReadLines(raw));
  }

  /** In the file a line that is not a guard and lies in a switched-off region is left as it is. */
  lemma OffRegionUntouched(raw: string, i: nat)
    requires i < |ReadLines(raw)| && !EnabledAt(ReadLines(raw), i + 1) && !IsOff(ReadLines(raw)[i])
    ensures i < |ReadLines(TabsFixed(raw))| && ReadLines(TabsFixed(raw))[i] == ReadLines(raw)[i]
  {
    LinesAfterTabs(raw);
  }

  lemma SpaceFixedOnce(raw: string)
    ensures AllTrimmed(ReadLines(SpaceFixed(raw))) && SpaceFixed(SpaceFixed(raw)) == SpaceFixed(raw)
  {
    LinesAfterSpace(raw);
    ReadGivesLines(raw);
    TrimAllKeepsLines(ReadLines(raw));
  }

  /** On every file, whatever its line ends, the two fixers give the same bytes in either order. */
  lemma FixersCommute(raw: string)
    ensures SpaceFixed(TabsFixed(raw)) == TabsFixed(SpaceFixed(raw))
  {
    var lines := ReadLines(raw);
    LinesAfterTabs(raw);
    LinesAfterSpace(raw);
    LinesCommute(lines);
    NoTabsNoChange(lines);
    TrimmedNoChange(lines);
    NoTabsNoChange(TrimAll(lines));
    TrimmedNoChange(FixTabs(lines));
  }

  /** Both checks accept what the two fixers leave. */
  lemma FixersAgree(raw: string)
    ensures NoTabs(ReadLines(SpaceFixed(TabsFixed(raw)))) && AllTrimmed(ReadLines(SpaceFixed(TabsFixed(raw))))
  {
    FixersCommute(raw);
    TabsFixedOnce(SpaceFixed(raw));
    SpaceFixedOnce(TabsFixed(raw));
  }

  // ----- what the fixers keep

  /** A text without its white space. */
  ghost function Squeezed(s: string): string {
    if s == [] then [] else Squeezed(s[..|s| - 1]) + (if IsSpace(s[|s| - 1]) then [] else [s[|s| - 1]])
  }

  lemma {:induction false} SqueezedConcat(a: string, b: string)
    ensures Squeezed(a + b) == Squeezed(a) + Squeezed(b)
  {
    if b == [] {
      assert a + b == a;
    } else {
      var m := |b| - 1;
      assert (a + b)[..|a + b| - 1] == a + b[..m];
      SqueezedConcat(a, b[..m]);
    }
  }

  lemma {:induction false} SqueezedSpace(s: string)
    requires AllSpace(s)
    ensures Squeezed(s) == []
  {
    if s == [] {
    } else {
      SqueezedSpace(s[..|s| - 1]);
    }
  }

  lemma {:induction false} ExpandKeepsText(s: string, col: nat)
    ensures Squeezed(Expand(s, col)) == Squeezed(s)
  {
    if s == [] {
    } else {
      var head := if s[0] == '\t' then Spaces(TabWidth(col)) else [s[0]];
      ExpandKeepsText(s[1..], NextCol(s[0], col));
      SqueezedConcat(head, Expand(s[1..], NextCol(s[0], col)));
      SqueezedConcat([s[0]], s[1..]);
      assert s == [s[0]] + s[1..];
      if s[0] == '\t' {
        SqueezedSpace(head);
        SqueezedSpace([s[0]]);
      }
    }
  }

  lemma TrimKeepsText(line: string)
    ensures Squeezed(Trim(line)) == Squeezed(line)
  {
    var after := RstripSplits(line);
    SqueezedConcat(Rstrip(line), after);
    SqueezedConcat(Rstrip(line), "\n");
    SqueezedSpace(after);
    SqueezedSpace("\n");
  }

  /** Line by line, neither fixer touches anything but white space. */
  lemma FixersKeepText(lines: seq<string>, i: nat)
    requires i < |lines|
    ensures Squeezed(FixTabs(lines)[i]) == Squeezed(lines[i])
    ensures Squeezed(TrimAll(lines)[i]) == Squeezed(lines[i])
  {
    ExpandKeepsText(lines[i], 0);
    TrimKeepsText(lines[i]);
  }

  // ----- fixing can switch the check off

  lemma {:induction false} NoSpecials(s: string, col: nat)
    requires '\t' !in s && '\n' !in s && '\r' !in s
    ensures ColAfter(s, col) == col + |s|
  {
    if s == [] {
    } else {
      NoSpecials(s[1..], col + 1);
    }
  }

  /** The off guard with a tab in place of its second blank, and a line end. */
  function TabbedGuard(): string {
    GUARD_OFF[..15] + "\t" + GUARD_OFF[16..] + "\n"
  }

  lemma GuardShape()
    ensures |GUARD_OFF| == 19 && GUARD_OFF[15] == ' ' && |GUARD_ON| == 18 && Solid(GUARD_OFF)
    ensures forall i :: 0 <= i < 19 ==> GUARD_OFF[i] != '\t' && GUARD_OFF[i] != '\n' && GUARD_OFF[i] != '\r'
  {}

  lemma NotYetGuard()
    ensures Strip(TabbedGuard()) == GUARD_OFF[..15] + "\t" + GUARD_OFF[16..]
  {
    GuardShape();
    var core := GUARD_OFF[..15] + "\t" + GUARD_OFF[16..];
    assert TabbedGuard() == [] + core + "\n";
    StripOf([], core, "\n");
  }

  lemma ExpandOneTab(a: string, b: string)
    requires forall i :: 0 <= i < |a| ==> a[i] != '\t' && a[i] != '\n' && a[i] != '\r'
    requires '\t' !in b
    ensures ExpandTabs(a + "\t" + b) == a + Spaces(TabWidth(|a|)) + b
  {
    assert a + "\t" + b == a + ("\t" + b) && ("\t" + b)[1..] == b;
    ExpandConcat(a, "\t" + b, 0);
    ExpandNoTabs(a, 0);
    NoSpecials(a, 0);
    ExpandNoTabs(b, |a| + TabWidth(|a|));
  }

  lemma NowGuard()
    ensures ExpandTabs(TabbedGuard()) == GUARD_OFF + "\n"
  {
    GuardShape();
    var a, b := GUARD_OFF[..15], GUARD_OFF[16..];
    assert TabbedGuard() == a + "\t" + (b + "\n");
    ExpandOneTab(a, b + "\n");
    assert Spaces(1) == [GUARD_OFF[15]];
    assert GUARD_OFF == a + [GUARD_OFF[15]] + b;
  }

  /** With a tab in place of its blank the off guard is no guard, until the tab fixer has run. */
  lemma FixingMakesGuard()
    ensures EnabledAt([TabbedGuard()], 1) && !EnabledAt(FixTabs([TabbedGuard()]), 1)
  {
    GuardShape();
    NotYetGuard();
    NowGuard();
    var lines := [TabbedGuard()];
    assert Strip(lines[0])[15] == '\t';
    assert EnabledAt(lines, 0) && EnabledAt(lines, 1);
    assert FixTabs(lines)[0] == [] + GUARD_OFF + "\n";
    StripOf([], GUARD_OFF, "\n");
    assert IsOff(FixTabs(lines)[0]) && !IsOn(FixTabs(lines)[0]);
  }

  // ----- the two checks

  class TextFile {
    var content: string

    constructor (content: string)
      ensures this.content == content
    {
      this.content := content;
    }
  }

  /** The body of the loop for one line: the guard state behind it, the verdict, the line to write. */
  method CheckLine(ghost lines: seq<string>, ghost i: nat, clangFormatEnabled: bool, line: string)
    returns (enabled: bool, clean: bool, lineFixed: string)
    requires i < |lines| && line == lines[i] && clangFormatEnabled == EnabledAt(lines, i)
    ensures enabled == EnabledAt(lines, i + 1) && lineFixed == FixTabsAt(lines, i)
    ensures clean <==> lineFixed == line
  {
    enabled, lineFixed := clangFormatEnabled, line;
    var lineStripped := Strip(line);
    if lineStripped == GUARD_ON {
      enabled := true;
    } else if lineStripped == GUARD_OFF {
      enabled := false;
    }
    ExpandNoTabs(line, 0);
    if !enabled && lineStripped != GUARD_ON && lineStripped != GUARD_OFF {
      clean := true;
    } else if '\t' !in line {
      clean := true;
    } else {
      clean, lineFixed := false, ExpandTabs(line);
    }
  }

  /** The loop: it gives up at the first line to complain about if nothing is to be fixed or shown. */
  method CheckTabsLines(lines: seq<string>, fix: bool, verbose: bool)
    returns (isFileCompliant: bool, fileLines: seq<string>)
    ensures isFileCompliant <==> NoTabs(lines)
    ensures fix ==> fileLines == FixTabs(lines)
  {
    isFileCompliant, fileLines := true, lines;
    var clangFormatEnabled := true;
    ghost var bad := 0;
    for i := 0 to |lines|
      invariant |fileLines| == |lines| && clangFormatEnabled == EnabledAt(lines, i)
      invariant forall k :: 0 <= k < |lines| ==> fileLines[k] == if k < i then FixTabsAt(lines, k) else lines[k]
      invariant isFileCompliant ==> fileLines == lines
      invariant !isFileCompliant ==> bad < i && fileLines[bad] != lines[bad]
    {
      var clean, lineFixed;
      clangFormatEnabled, clean, lineFixed := CheckLine(lines, i, clangFormatEnabled, lines[i]);
      if clean {
        continue;
      }
      isFileCompliant, bad := false, i;
      fileLines := fileLines[i := lineFixed];
      if !fix && !verbose {
        Complaint(lines, i);
        return;
      }
    }
    AllFixed(lines, fileLines);
  }

  lemma Complaint(lines: seq<string>, i: nat)
    requires i < |lines| && FixTabsAt(lines, i) != lines[i]
    ensures !NoTabs(lines)
  {
    NoTabsNoChange(lines);
    assert FixTabs(lines)[i] != lines[i];
  }

  lemma AllFixed(lines: seq<string>, fileLines: seq<string>)
    requires |fileLines| == |lines| && forall k :: 0 <= k < |lines| ==> fileLines[k] == FixTabsAt(lines, k)
    ensures fileLines == FixTabs(lines) && (NoTabs(lines) <==> fileLines == lines)
  {
    NoTabsNoChange(lines);
  }

  method CheckTabsFile(f: TextFile, fix: bool, verbose: bool) returns (isFileCompliant: bool)
    modifies f
    ensures isFileCompliant <==> NoTabs(ReadLines(old(f.content)))
    ensures f.content == if fix then TabsFixed(old(f.content)) else old(f.content)
    ensures isFileCompliant || !fix ==> f.content == old(f.content)
    ensures fix && !isFileCompliant ==>
      ReadLines(f.content) == FixTabs(ReadLines(old(f.content))) && '\r' !in f.content
  {
    LinesAfterTabs(f.content);
    TabsWritten(f.content);
    var fileLines := ReadLines(f.content);
    isFileCompliant, fileLines := CheckTabsLines(fileLines, fix, verbose);
    if fix && !isFileCompliant {
      f.content := WriteLines(fileLines);
    }
  }

  /** The loop: it gives up at the first line to complain about if nothing is to be fixed or shown. */
  method TrimLines(lines: seq<string>, fix: bool, verbose: bool)
    returns (isFileCompliant: bool, fileLines: seq<string>)
    ensures isFileCompliant <==> AllTrimmed(lines)
    ensures fix ==> fileLines == TrimAll(lines)
  {
    isFileCompliant, fileLines := true, lines;
    ghost var bad := 0;
    for i := 0 to |lines|
      invariant |fileLines| == |lines|
      invariant forall k :: 0 <= k < |lines| ==> fileLines[k] == if k < i then Trim(lines[k]) else lines[k]
      invariant isFileCompliant ==> fileLines == lines
      invariant !isFileCompliant ==> bad < i && fileLines[bad] != lines[bad]
    {
      var clean, lineFixed := TrimLine(lines[i]);
      if clean {
        continue;
      }
      isFileCompliant, bad := false, i;
      fileLines := fileLines[i := lineFixed];
      if !fix && !verbose {
        SpaceComplaint(lines, i);
        return;
      }
    }
    AllSpaceFixed(lines, fileLines);
  }

  /** The body of the loop for one line: the verdict and the line to write. */
  method TrimLine(line: string) returns (clean: bool, lineFixed: string)
    ensures clean == Trimmed(line) && lineFixed == Trim(line)
  {
    lineFixed := Rstrip(line) + "\n";
    clean := lineFixed == line;
  }

  lemma SpaceComplaint(lines: seq<string>, i: nat)
    requires i < |lines| && Trim(lines[i]) != lines[i]
    ensures !AllTrimmed(lines)
  {}

  lemma AllSpaceFixed(lines: seq<string>, fileLines: seq<string>)
    requires |fileLines| == |lines| && forall k :: 0 <= k < |lines| ==> fileLines[k] == Trim(lines[k])
    ensures fileLines == TrimAll(lines) && (AllTrimmed(lines) <==> fileLines == lines)
  {
    TrimmedNoChange(lines);
  }

  method CheckTrailingWhitespaceFile(f: TextFile, fix: bool, verbose: bool) returns (isFileCompliant: bool)
    modifies f
    ensures isFileCompliant <==> AllTrimmed(ReadLines(old(f.content)))
    ensures f.content == if fix then SpaceFixed(old(f.content)) else old(f.content)
    ensures isFileCompliant || !fix ==> f.content == old(f.content)
    ensures fix && !isFileCompliant ==>
      ReadLines(f.content) == TrimAll(ReadLines(old(f.content))) && '\r' !in f.content
  {
    LinesAfterSpace(f.content);
    SpaceWritten(f.content);
    var fileLines := ReadLines(f.content);
    isFileCompliant, fileLines := TrimLines(fileLines, fix, verbose);
    if fix && !isFileCompliant {
      f.content := WriteLines(fileLines);
    }
  }
}
