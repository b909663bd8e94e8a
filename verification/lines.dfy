/** Strings seen as lines. A line is a maximal piece between '\n'
    characters, which is what `^` matches the start of under Python's
    `re.MULTILINE`: the start of the string and every position right after
    a '\n'. */
module Lines {

  /** The lines of `s`, as Python's `s.split('\n')` gives them; there is
      always at least one. */
  function SplitLines(s: string): (r: seq<string>)
    ensures |r| != 0
  {
    if |s| == 0 then [""]
    else
      var rest := SplitLines(s[1..]);
      if s[0] == '\n' then [""] + rest
      else [[s[0]] + rest[0]] + rest[1..]
  }

  /** A string has one more line than '\n' characters, and no line holds
      a '\n'. */
  lemma {:induction false} SplitLinesShape(s: string)
    ensures |SplitLines(s)| == multiset(s)['\n'] + 1
    ensures forall i :: 0 <= i < |SplitLines(s)| ==> '\n' !in SplitLines(s)[i]
  {
    if |s| != 0 {
      SplitLinesShape(s[1..]);
      var rest := SplitLines(s[1..]);
      assert s == [s[0]] + s[1..];
      assert multiset(s) == multiset{s[0]} + multiset(s[1..]);
      if s[0] != '\n' {
        var r := SplitLines(s);
        assert r[0] == [s[0]] + rest[0];
        assert forall i :: 1 <= i < |r| ==> r[i] == rest[i];
      }
    }
  }

  /** The lines put back together, a '\n' between neighbours: Python's
      `'\n'.join(ls)`. */
  function JoinLines(ls: seq<string>): string
  {
    if |ls| == 0 then ""
    else if |ls| == 1 then ls[0]
    else ls[0] + "\n" + JoinLines(ls[1..])
  }

  /** Joining the lines of a string gives the string back. */
  lemma {:induction false} JoinSplit(s: string)
    ensures JoinLines(SplitLines(s)) == s
  {
    if |s| != 0 {
      var c, t := s[0], s[1..];
      JoinSplit(t);
      JoinSplitCons(c, t);
      assert [c] + t == s;
    }
  }

  /** One character in front of a string whose lines join back to it. */
  lemma JoinSplitCons(c: char, t: string)
    requires JoinLines(SplitLines(t)) == t
    ensures JoinLines(SplitLines([c] + t)) == [c] + t
  {
    SplitCons(c, t);
    var rest := SplitLines(t);
    if c == '\n' {
      assert ([""] + rest)[1..] == rest;
    } else {
      JoinPrefix([c], rest[0], rest[1..]);
      assert [rest[0]] + rest[1..] == rest;
    }
  }

  /** How one character in front of a string changes its lines. */
  lemma SplitCons(c: char, t: string)
    ensures SplitLines([c] + t) ==
      if c == '\n' then [""] + SplitLines(t)
      else [[c] + SplitLines(t)[0]] + SplitLines(t)[1..]
  {
    assert ([c] + t)[1..] == t;
  }

  /** Splitting joined lines gives the lines back, provided none of them
      holds a '\n' and there is at least one. */
  lemma {:induction false} SplitJoin(ls: seq<string>)
    requires |ls| != 0
    requires forall i :: 0 <= i < |ls| ==> '\n' !in ls[i]
    ensures SplitLines(JoinLines(ls)) == ls
  {
    if |ls| == 1 {
      SplitOneLine(ls[0]);
    } else {
      SplitJoin(ls[1..]);
      SplitAtNewline(ls[0], JoinLines(ls[1..]));
      SplitOneLine(ls[0]);
      assert [ls[0]] + ls[1..] == ls;
    }
  }

  /** A string without '\n' is a single line. */
  lemma {:induction false} SplitOneLine(s: string)
    requires '\n' !in s
    ensures SplitLines(s) == [s]
  {
    if |s| != 0 {
      assert s[1..] == s[|s| - |s[1..]|..];
      assert forall c :: c in s[1..] ==> c in s;
      SplitOneLine(s[1..]);
      assert s == [s[0]] + s[1..];
    }
  }

  /** A '\n' between two strings separates their lines. */
  lemma {:induction false} SplitAtNewline(x: string, y: string)
    ensures SplitLines(x + "\n" + y) == SplitLines(x) + SplitLines(y)
  {
    var s := x + "\n" + y;
    if |x| == 0 {
      assert s == "\n" + y;
      assert s[1..] == y;
    } else {
      assert s[0] == x[0];
      assert s[1..] == x[1..] + "\n" + y;
      SplitAtNewline(x[1..], y);
    }
  }

  /** A text without '\n' placed in front of a string joins its first line. */
  lemma {:induction false} SplitPrefix(p: string, s: string)
    requires '\n' !in p
    ensures SplitLines(p + s) == [p + SplitLines(s)[0]] + SplitLines(s)[1..]
  {
    var r := SplitLines(s);
    if |p| == 0 {
      assert p + s == s;
      assert p + r[0] == r[0];
      assert [r[0]] + r[1..] == r;
    } else {
      var c, q := p[0], p[1..];
      assert p == [c] + q;
      assert '\n' !in q by {
        assert forall x :: x in q ==> x in p;
      }
      SplitPrefix(q, s);
      SplitPrefixCons(c, q + s, q + r[0], r[1..]);
      assert p + s == [c] + (q + s);
      assert p + r[0] == [c] + (q + r[0]);
    }
  }

  /** One more character, not '\n', in front of a string whose first line
      is known. */
  lemma SplitPrefixCons(c: char, t: string, first: string, rest: seq<string>)
    requires c != '\n'
    requires SplitLines(t) == [first] + rest
    ensures SplitLines([c] + t) == [[c] + first] + rest
  {
    SplitCons(c, t);
    assert SplitLines(t)[0] == first;
    assert SplitLines(t)[1..] == rest;
  }

  /** Text in front of joined lines belongs to the first line. */
  lemma JoinPrefix(p: string, first: string, rest: seq<string>)
    ensures JoinLines([p + first] + rest) == p + JoinLines([first] + rest)
  {
    if |rest| != 0 {
      assert ([p + first] + rest)[1..] == rest;
      assert ([first] + rest)[1..] == rest;
    }
  }
}
