/** What `shift_headings` does to the lines of a body, proved from the
    line-wise reading of the substitution. */
module HeadingProperties {
  import opened Seqs
  import opened Lines
  import opened Headings

  lemma ShiftedLinesHaveNoNewline(ls: seq<string>, shift: string)
    requires AllHashes(shift)
    requires forall i :: 0 <= i < |ls| ==> '\n' !in ls[i]
    ensures forall i :: 0 <= i < |ls| ==> '\n' !in ShiftLines(ls, shift)[i]
  {
    forall i | 0 <= i < |ls| ensures '\n' !in ShiftLines(ls, shift)[i] {
      if IsHashLine(ls[i]) {
        assert forall j :: 0 <= j < |shift| ==> (shift + ls[i])[j] == '#';
      }
    }
  }

  /** The lines of the shifted body are the lines of the body, each
      '#'-led one behind `level` more '#'. */
  lemma LinesOfShifted(md: string, level: int)
    ensures SplitLines(ShiftHeadings(md, level)) == ShiftLines(SplitLines(md), Hashes(ShiftWidth(level)))
  {
    var shift := Hashes(ShiftWidth(level));
    ShiftHeadingsByLines(md, level);
    SplitLinesShape(md);
    ShiftedLinesHaveNoNewline(SplitLines(md), shift);
    SplitJoin(ShiftLines(SplitLines(md), shift));
  }

  /** `shift_headings(md, level)` puts exactly `'#' * level` in front of
      every line of `md` that starts with '#', adds nothing else to such a
      line, leaves every other line as it is, and keeps the number of lines
      and of '\n' characters. */
  lemma ShiftHeadingsLinewise(md: string, level: int)
    ensures var before := SplitLines(md);
      var after := SplitLines(ShiftHeadings(md, level));
      && |after| == |before|
      && (forall i :: 0 <= i < |before| && IsHashLine(before[i]) ==>
            after[i] == Hashes(ShiftWidth(level)) + before[i])
      && (forall i :: 0 <= i < |before| && !IsHashLine(before[i]) ==> after[i] == before[i])
    ensures multiset(ShiftHeadings(md, level))['\n'] == multiset(md)['\n']
  {
    LinesOfShifted(md, level);
    SplitLinesShape(md);
    SplitLinesShape(ShiftHeadings(md, level));
  }

  /** A level of zero (or below) changes nothing. */
  lemma ShiftHeadingsByNothing(md: string, level: int)
    requires level <= 0
    ensures ShiftHeadings(md, level) == md
  {
    var ls := SplitLines(md);
    ShiftHeadingsByLines(md, level);
    assert ShiftLines(ls, Hashes(ShiftWidth(level))) == ls by {
      forall i | 0 <= i < |ls| ensures ShiftLine(ls[i], "") == ls[i] {
        assert "" + ls[i] == ls[i];
      }
    }
    JoinSplit(md);
  }

  lemma ShiftLineTwice(line: string, a: nat, b: nat)
    ensures ShiftLine(ShiftLine(line, Hashes(a)), Hashes(b)) == ShiftLine(line, Hashes(a + b))
  {
    if IsHashLine(line) {
      assert (Hashes(a) + line)[0] == '#';
      assert Hashes(b) + Hashes(a) == Hashes(a + b);
    }
  }

  /** Shifting by `a` and then by `b` is shifting once by both widths. */
  lemma ShiftHeadingsCompose(md: string, a: int, b: int)
    ensures ShiftHeadings(ShiftHeadings(md, a), b) == ShiftHeadings(md, ShiftWidth(a) + ShiftWidth(b))
  {
    var ls := SplitLines(md);
    var wa, wb := ShiftWidth(a), ShiftWidth(b);
    LinesOfShifted(md, a);
    ShiftHeadingsByLines(ShiftHeadings(md, a), b);
    ShiftHeadingsByLines(md, wa + wb);
    forall i | 0 <= i < |ls|
      ensures ShiftLines(ShiftLines(ls, Hashes(wa)), Hashes(wb))[i] == ShiftLines(ls, Hashes(wa + wb))[i]
    {
      ShiftLineTwice(ls[i], wa, wb);
    }
    assert ShiftLines(ShiftLines(ls, Hashes(wa)), Hashes(wb)) == ShiftLines(ls, Hashes(wa + wb));
  }

  /** How many lines of `md` start with '#'. */
  function HashLineCount(md: string): nat
  {
    |Filter(SplitLines(md), IsHashLine)|
  }

  lemma {:induction false} JoinShiftedLength(ls: seq<string>, shift: string)
    ensures |JoinLines(ShiftLines(ls, shift))| == |JoinLines(ls)| + |shift| * |Filter(ls, IsHashLine)|
  {
    if |ls| != 0 {
      var shifted := ShiftLines(ls, shift);
      var count := |Filter(ls[1..], IsHashLine)|;
      var extra := if IsHashLine(ls[0]) then 1 else 0;
      assert shifted[1..] == ShiftLines(ls[1..], shift);
      JoinShiftedLength(ls[1..], shift);
      assert |Filter(ls, IsHashLine)| == extra + count;
      assert |shifted[0]| == |ls[0]| + |shift| * extra;
      JoinLength(ls);
      JoinLength(shifted);
      Distribute(|shift|, extra, count);
    }
  }

  lemma Distribute(w: nat, a: nat, b: nat)
    ensures w * (a + b) == w * a + w * b
  {
  }

  lemma JoinLength(ls: seq<string>)
    requires |ls| != 0
    ensures |JoinLines(ls)| == |ls[0]| + |JoinLines(ls[1..])| + (if |ls| == 1 then 0 else 1)
  {
  }

  /** The shifted body is longer by `level` for every '#'-led line. */
  lemma ShiftHeadingsLength(md: string, level: int)
    ensures |ShiftHeadings(md, level)| == |md| + ShiftWidth(level) * HashLineCount(md)
  {
    ShiftHeadingsByLines(md, level);
    JoinShiftedLength(SplitLines(md), Hashes(ShiftWidth(level)));
    JoinSplit(md);
  }

  /** A first-level heading line: one '#' not followed by another. */
  predicate IsTopHeading(line: string)
  {
    IsHashLine(line) && (|line| == 1 || line[1] != '#')
  }

  /** The first-level heading lines of `s`, in order. */
  function TopHeadings(s: string): seq<string>
  {
    Filter(SplitLines(s), IsTopHeading)
  }

  /** After a shift by one level or more, every '#'-led line starts with
      "##", so no first-level heading is left. */
  lemma ShiftedBodyHasNoTopHeading(md: string, level: int)
    requires level >= 1
    ensures forall line :: line in SplitLines(ShiftHeadings(md, level)) && IsHashLine(line) ==>
      |line| >= 2 && line[..2] == "##"
    ensures TopHeadings(ShiftHeadings(md, level)) == []
  {
    var after := SplitLines(ShiftHeadings(md, level));
    var before := SplitLines(md);
    LinesOfShifted(md, level);
    forall line | line in after && IsHashLine(line) ensures |line| >= 2 && line[..2] == "##" {
      var i :| 0 <= i < |after| && after[i] == line;
      ShiftedLineIsDeep(before[i], level);
    }
    FilterKeepsNone(after, IsTopHeading);
  }

  lemma ShiftedLineIsDeep(before: string, level: int)
    requires level >= 1
    ensures var line := ShiftLine(before, Hashes(ShiftWidth(level)));
      IsHashLine(line) ==> |line| >= 2 && line[..2] == "##"
  {
    var line := ShiftLine(before, Hashes(level));
    if IsHashLine(before) {
      assert line == Hashes(level) + before;
      assert line[0] == '#' && line[1] == '#';
    }
  }

  /** A '\n' between two strings separates their first-level headings. */
  lemma TopHeadingsAtNewline(x: string, y: string)
    ensures TopHeadings(x + "\n" + y) == TopHeadings(x) + TopHeadings(y)
  {
    SplitAtNewline(x, y);
    FilterAppend(SplitLines(x), SplitLines(y), IsTopHeading);
  }
}
