/** Heading demotion in a Markdown body: `shift_headings(md, level)`
    rewrites the leading run of '#' on every line with the same run followed
    by `level` more '#' (the regular expression `^(#+)` replaced by
    `\1` + `'#' * level` under `re.MULTILINE`). */
module Headings {
  import opened Lines

  /** How many '#' Python's `'#' * level` holds: none for a level of zero or
      below. */
  function ShiftWidth(level: int): nat
  {
    if level > 0 then level else 0
  }

  function Hashes(n: nat): string
  {
    seq(n, _ => '#')
  }

  predicate AllHashes(s: string)
  {
    forall i :: 0 <= i < |s| ==> s[i] == '#'
  }

  /** The length of what `#+` matches greedily at the front of `s`: a run of
      '#' that cannot be extended. */
  function LeadingHashes(s: string): (n: nat)
    ensures n <= |s|
    ensures forall i :: 0 <= i < n ==> s[i] == '#'
    ensures n == |s| || s[n] != '#'
  {
    if |s| == 0 || s[0] != '#' then 0
    else 1 + LeadingHashes(s[1..])
  }

  /** The substitution scan: `atLineStart` says whether the scan stands
      where `^` matches. There a '#' starts a match of `#+`; the whole run is
      written back followed by `shift`, and the scan goes on mid-line, so
      that `^` cannot match again before the next '\n'. */
  function Substitute(md: string, atLineStart: bool, shift: string): string
    decreases |md|
  {
    if |md| == 0 then ""
    else if atLineStart && md[0] == '#' then
      var n := LeadingHashes(md);
      md[..n] + shift + Substitute(md[n..], false, shift)
    else
      [md[0]] + Substitute(md[1..], md[0] == '\n', shift)
  }

  /** `shift_headings(md, level)`. */
  function ShiftHeadings(md: string, level: int): string
  {
    Substitute(md, true, Hashes(ShiftWidth(level)))
  }

  /** A line the substitution touches: one whose first character is '#'. */
  predicate IsHashLine(line: string)
  {
    |line| != 0 && line[0] == '#'
  }

  /** The line-wise reading of the substitution. */
  function ShiftLine(line: string, shift: string): string
  {
    if IsHashLine(line) then shift + line else line
  }

  function ShiftLines(ls: seq<string>, shift: string): seq<string>
  {
    seq(|ls|, i requires 0 <= i < |ls| => ShiftLine(ls[i], shift))
  }

  /** All lines shifted, or all but the first when the scan starts mid-line. */
  function ShiftFrom(ls: seq<string>, atLineStart: bool, shift: string): seq<string>
    requires |ls| != 0
  {
    if atLineStart then ShiftLines(ls, shift) else [ls[0]] + ShiftLines(ls[1..], shift)
  }

  lemma ShiftLinesCons(x: string, ls: seq<string>, shift: string)
    ensures ShiftLines([x] + ls, shift) == [ShiftLine(x, shift)] + ShiftLines(ls, shift)
  {
  }

  lemma HashesCommute(a: string, b: string)
    requires AllHashes(a) && AllHashes(b)
    ensures a + b == b + a
  {
  }

  lemma {:induction false} SubstituteByLines(md: string, atLineStart: bool, shift: string)
    requires AllHashes(shift)
    ensures Substitute(md, atLineStart, shift) == JoinLines(ShiftFrom(SplitLines(md), atLineStart, shift))
    decreases |md|
  {
    if |md| == 0 {
      assert ShiftLines([""], shift) == [""];
    } else if atLineStart && md[0] == '#' {
      // A match of `#+`: the run is the front of the first line.
      var n := LeadingHashes(md);
      var run, t := md[..n], md[n..];
      var ls := SplitLines(t);
      SubstituteByLines(t, false, shift);
      assert SplitLines(md) == [run + ls[0]] + ls[1..] by {
        assert '\n' !in run by {
          assert forall c :: c in run ==> c == '#';
        }
        assert md == run + t;
        SplitPrefix(run, t);
      }
      assert AllHashes(run) && IsHashLine(run + ls[0]) by {
        assert (run + ls[0])[0] == run[0];
      }
      assert Substitute(md, true, shift) == run + shift + Substitute(t, false, shift);
      assert ShiftFrom(ls, false, shift) == [ls[0]] + ShiftLines(ls[1..], shift);
      ShiftedFirstLine(run, shift, ls[0], ls[1..]);
    } else {
      SubstituteByLines(md[1..], md[0] == '\n', shift);
      SubstituteOneChar(md, atLineStart, shift);
    }
  }

  lemma ShiftedFirstLine(run: string, shift: string, first: string, rest: seq<string>)
    requires AllHashes(run) && AllHashes(shift) && IsHashLine(run + first)
    ensures run + shift + JoinLines([first] + ShiftLines(rest, shift))
      == JoinLines(ShiftLines([run + first] + rest, shift))
  {
    var shiftedRest := ShiftLines(rest, shift);
    calc {
      run + shift + JoinLines([first] + shiftedRest);
      { HashesCommute(run, shift); }
      (shift + run) + JoinLines([first] + shiftedRest);
      { JoinPrefix(shift + run, first, shiftedRest); }
      JoinLines([(shift + run) + first] + shiftedRest);
      { assert (shift + run) + first == shift + (run + first); }
      JoinLines([ShiftLine(run + first, shift)] + shiftedRest);
      { ShiftLinesCons(run + first, rest, shift); }
      JoinLines(ShiftLines([run + first] + rest, shift));
    }
  }

  /** One step of `SubstituteByLines`: a character copied unchanged. */
  lemma SubstituteOneChar(md: string, atLineStart: bool, shift: string)
    requires |md| != 0 && !(atLineStart && md[0] == '#')
    requires Substitute(md[1..], md[0] == '\n', shift)
      == JoinLines(ShiftFrom(SplitLines(md[1..]), md[0] == '\n', shift))
    ensures Substitute(md, atLineStart, shift) == JoinLines(ShiftFrom(SplitLines(md), atLineStart, shift))
  {
    var c, t := md[0], md[1..];
    var ls := SplitLines(t);
    if c == '\n' {
      assert SplitLines(md) == [""] + ls;
      ShiftLinesCons("", ls, shift);
      assert ([""] + ShiftLines(ls, shift))[1..] == ShiftLines(ls, shift);
      assert ([""] + ls)[1..] == ls;
    } else {
      assert SplitLines(md) == [[c] + ls[0]] + ls[1..];
      ShiftLinesCons([c] + ls[0], ls[1..], shift);
      JoinPrefix([c], ls[0], ShiftLines(ls[1..], shift));
    }
  }

  /** The line-wise reference: `shift_headings` splits the body at '\n',
      puts `level` '#' in front of every line that starts with '#', and
      joins the lines again. */
  lemma ShiftHeadingsByLines(md: string, level: int)
    ensures ShiftHeadings(md, level) == JoinLines(ShiftLines(SplitLines(md), Hashes(ShiftWidth(level))))
  {
    SubstituteByLines(md, true, Hashes(ShiftWidth(level)));
  }
}
