/**
 What the style checks of utils/check-style-clang-format.py accept and write, said of characters, columns
 and guards and without the functions that specify the checks.
 */
module StyleFixersExact {
  import opened StyleFixers

  ghost predicate AllBlank(s: string) {
    forall i :: 0 <= i < |s| ==> s[i] == ' '
  }

  /** No character that moves the column by anything but one. */
  ghost predicate Plain(s: string) {
    forall i :: 0 <= i < |s| ==> s[i] != '\t' && s[i] != '\n' && s[i] != '\r'
  }

  ghost predicate OneLine(s: string) {
    forall i :: 0 <= i < |s| ==> s[i] != '\n' && s[i] != '\r'
  }

  // ----- tabs

  /** Only the column modulo four counts. */
  lemma {:induction false} ExpandShift(s: string, c: nat, d: nat)
    requires c % 4 == d % 4
    ensures Expand(s, c) == Expand(s, d)
  {
    if s == [] {
    } else {
      assert TabWidth(c) == TabWidth(d);
      assert NextCol(s[0], c) % 4 == NextCol(s[0], d) % 4;
      ExpandShift(s[1..], NextCol(s[0], c), NextCol(s[0], d));
    }
  }

  /** The first tab becomes one to four blanks that end at a multiple of four; what follows starts afresh there. */
  lemma TabToBlanks(a: string, b: string) returns (blanks: string)
    requires Plain(a)
    ensures AllBlank(blanks) && 1 <= |blanks| <= 4 && (|a| + |blanks|) % 4 == 0
    ensures ExpandTabs(a + "\t" + b) == a + blanks + ExpandTabs(b)
  {
    blanks := Spaces(TabWidth(|a|));
    assert a + "\t" + b == a + ("\t" + b) && ("\t" + b)[1..] == b;
    ExpandConcat(a, "\t" + b, 0);
    ExpandNoTabs(a, 0);
    NoSpecials(a, 0);
    ExpandShift(b, |a| + TabWidth(|a|), 0);
    assert ExpandTabs(a + "\t" + b) == a + (blanks + ExpandTabs(b));
  }

  /** Without a tab nothing changes. */
  lemma NoTabNoChange(s: string)
    requires '\t' !in s
    ensures ExpandTabs(s) == s
  {
    ExpandNoTabs(s, 0);
  }

  lemma {:induction false} ColumnReached(s: string, col: nat)
    requires OneLine(s)
    ensures ColAfter(s, col) == col + |Expand(s, col)|
  {
    if s == [] {
    } else {
      ColumnReached(s[1..], NextCol(s[0], col));
    }
  }

  /** Behind any tab of a line the text goes on at a multiple of four. */
  lemma ColumnBehindTab(a: string, b: string)
    requires OneLine(a)
    ensures var front := ExpandTabs(a + "\t"); |front| % 4 == 0 && front <= ExpandTabs(a + "\t" + b)
  {
    ExpandConcat(a + "\t", b, 0);
    ExpandConcat(a, "\t", 0);
    ColumnReached(a, 0);
    ColumnReached("\t", ColAfter(a, 0));
  }

  // ----- trailing white space

  /** The characters that Python takes for white space. */
  lemma WhiteSpace(c: char)
    ensures IsSpace(c) <==> c as int in [
      0x09, 0x0A, 0x0B, 0x0C, 0x0D, 0x1C, 0x1D, 0x1E, 0x1F, 0x20, 0x85, 0xA0, 0x1680,
      0x2000, 0x2001, 0x2002, 0x2003, 0x2004, 0x2005, 0x2006, 0x2007, 0x2008, 0x2009, 0x200A,
      0x2028, 0x2029, 0x202F, 0x205F, 0x3000]
  {}

  /** The whitespace check accepts a line that ends with LF behind nothing or behind no white space. */
  lemma TrimmedMeans(line: string)
    ensures Trimmed(line) <==>
      line != [] && line[|line| - 1] == '\n' && (|line| == 1 || !IsSpace(line[|line| - 2]))
  {
    var after := RstripSplits(line);
    var core := Rstrip(line);
    if line != [] && line[|line| - 1] == '\n' && (|line| == 1 || !IsSpace(line[|line| - 2])) {
      var m := |line| - 1;
      assert line == line[..m] + "\n" && AllSpace("\n");
      RstripOf(line[..m], "\n");
    }
    if Trimmed(line) {
      assert line == core + "\n";
    }
  }

  /** What is rewritten is the line up to its trailing white space, and an LF. */
  lemma TrimMeans(line: string) returns (after: string)
    ensures var text := Trim(line)[..|Trim(line)| - 1];
      && Trim(line) == text + "\n" && line == text + after && AllSpace(after)
      && (text == [] || !IsSpace(text[|text| - 1]))
  {
    after := RstripSplits(line);
    assert Trim(line)[..|Trim(line)| - 1] == Rstrip(line);
  }

  // ----- reading and writing

  /** LF, CR LF, or a CR that no LF follows. */
  ghost predicate LineEnd(end: string, rest: string) {
    end == "\n" || end == "\r\n" || (end == "\r" && (rest == [] || rest[0] != '\n'))
  }

  lemma {:induction false} TranslateLine(text: string, end: string, rest: string)
    requires OneLine(text) && LineEnd(end, rest)
    ensures Translate(text + end + rest) == text + "\n" + Translate(rest)
  {
    var all := text + end + rest;
    if text == [] {
      assert all == end + rest;
      if end == "\r\n" {
        assert all[2..] == rest;
      } else {
        assert all[1..] == rest;
      }
    } else {
      assert all[1..] == text[1..] + end + rest;
      TranslateLine(text[1..], end, rest);
      assert [text[0]] + (text[1..] + "\n" + Translate(rest)) == text + "\n" + Translate(rest);
    }
  }

  /** Reading takes off the first line, whatever ends it, and ends it with an LF. */
  lemma ReadFirstLine(text: string, end: string, rest: string)
    requires OneLine(text) && LineEnd(end, rest)
    ensures ReadLines(text + end + rest) == [text + "\n"] + ReadLines(rest)
  {
    TranslateLine(text, end, rest);
    assert IsLine(text + "\n") && Ended(text + "\n");
    SplitLine(text + "\n", Translate(rest));
  }

  /** A last line without an end is read as it is. */
  lemma ReadLastLine(text: string)
    requires OneLine(text)
    ensures ReadLines(text) == if text == [] then [] else [text]
  {
    TranslateNothing(text);
    if text == [] {
    } else {
      SplitLine(text, []);
      assert text + [] == text;
    }
  }

  /** Writing puts the lines one behind the other. */
  lemma {:induction false} WriteConcat(a: seq<string>, b: seq<string>)
    ensures WriteLines(a + b) == WriteLines(a) + WriteLines(b)
  {
    if a == [] {
      assert a + b == b;
    } else {
      assert (a + b)[1..] == a[1..] + b;
      WriteConcat(a[1..], b);
    }
  }

  lemma WriteOne(line: string)
    ensures WriteLines([line]) == line
  {
    assert [line][1..] == [];
  }

  // ----- the guards

  /** The guards are these comments, with any white space around them. */
  lemma GuardText(before: string, after: string)
    requires AllSpace(before) && AllSpace(after)
    ensures IsOn(before + "// clang-format on" + after) && IsOff(before + "// clang-format off" + after)
  {
    StripOf(before, "// clang-format on", after);
    StripOf(before, "// clang-format off", after);
  }

  lemma OnlyGuards(line: string)
    ensures IsOn(line) ==> exists before, after ::
      AllSpace(before) && AllSpace(after) && line == before + "// clang-format on" + after
    ensures IsOff(line) ==> exists before, after ::
      AllSpace(before) && AllSpace(after) && line == before + "// clang-format off" + after
  {
    if IsOn(line) || IsOff(line) {
      var before, after := StripSplits(line);
    }
  }

  /** An off guard before line i has no on guard behind it. */
  ghost predicate SwitchedOff(lines: seq<string>, i: nat)
    requires i <= |lines|
  {
    exists k :: 0 <= k < i && IsOff(lines[k]) && forall m :: k < m < i ==> !IsOn(lines[m])
  }

  lemma NotBoth(line: string)
    ensures !(IsOn(line) && IsOff(line))
  {
    GuardShape();
  }

  /** Formatting is disabled exactly between an off guard and the next on guard. */
  lemma {:induction false} EnabledMeans(lines: seq<string>, i: nat)
    requires i <= |lines|
    ensures EnabledAt(lines, i) <==> !SwitchedOff(lines, i)
  {
    if i == 0 {
    } else {
      EnabledMeans(lines, i - 1);
      NotBoth(lines[i - 1]);
      SwitchStep(lines, i);
    }
  }

  lemma SwitchStep(lines: seq<string>, i: nat)
    requires 0 < i <= |lines|
    ensures SwitchedOff(lines, i) <==> IsOff(lines[i - 1]) || (SwitchedOff(lines, i - 1) && !IsOn(lines[i - 1]))
  {
    if SwitchedOff(lines, i - 1) && !IsOn(lines[i - 1]) {
      var k :| 0 <= k < i - 1 && IsOff(lines[k]) && forall m :: k < m < i - 1 ==> !IsOn(lines[m]);
      assert IsOff(lines[k]) && forall m :: k < m < i ==> !IsOn(lines[m]);
    }
    if SwitchedOff(lines, i) {
      var k :| 0 <= k < i && IsOff(lines[k]) && forall m :: k < m < i ==> !IsOn(lines[m]);
      if k < i - 1 {
        assert !IsOn(lines[i - 1]);
        assert IsOff(lines[k]) && forall m :: k < m < i - 1 ==> !IsOn(lines[m]);
      }
    }
  }

  /** The tab check looks at guard lines and wherever formatting is not switched off. */
  ghost predicate LookedAt(lines: seq<string>, i: nat)
    requires i < |lines|
  {
    IsOn(lines[i]) || IsOff(lines[i]) || !SwitchedOff(lines, i)
  }

  lemma CheckedMeans(lines: seq<string>, i: nat)
    requires i < |lines|
    ensures Checked(lines, i) <==> LookedAt(lines, i)
  {
    EnabledMeans(lines, i);
  }

  /** The verdict on tabs, and the lines that are written. */
  lemma TabCheckMeans(lines: seq<string>)
    ensures NoTabs(lines) <==> forall i :: 0 <= i < |lines| && LookedAt(lines, i) ==> '\t' !in lines[i]
    ensures |FixTabs(lines)| == |lines|
    ensures forall i :: 0 <= i < |lines| ==>
      FixTabs(lines)[i] == if LookedAt(lines, i) then ExpandTabs(lines[i]) else lines[i]
  {
    forall i | 0 <= i < |lines|
      ensures FixTabs(lines)[i] == if LookedAt(lines, i) then ExpandTabs(lines[i]) else lines[i]
    {
      CheckedMeans(lines, i);
    }
    forall i | 0 <= i < |lines| ensures Clean(lines, i) <==> (LookedAt(lines, i) ==> '\t' !in lines[i]) {
      CheckedMeans(lines, i);
    }
  }
}
