/** Cutting texts into lines that keep their newline, and joining them back. */
module TextLines {

  /** Cuts after every newline; what follows the last newline is always a line,
      even when it is empty. */
  function SplitAfter(s: string): (lines: seq<string>)
    ensures lines != []
  {
    if s == [] then [""]
    else
      var rest := SplitAfter(s[1..]);
      if s[0] == '\n' then ["\n"] + rest else [[s[0]] + rest[0]] + rest[1..]
  }

  function Join(lines: seq<string>): string {
    if lines == [] then [] else lines[0] + Join(lines[1..])
  }

  /** The lines a merge works on. */
  function SplitWithNewlines(s: string): seq<string> {
    if s == "" then [] else SplitAfter(s)
  }

  /** The lines a diff works on: an empty last line is dropped. */
  function SplitLines(s: string): seq<string> {
    if s == "" then []
    else
      var lines := SplitAfter(s);
      if lines[|lines| - 1] == "" then lines[..|lines| - 1] else lines
  }

  lemma JoinCons(line: string, lines: seq<string>)
    ensures Join([line] + lines) == line + Join(lines)
  {
    assert ([line] + lines)[1..] == lines;
  }

  lemma SplitStep(s: string)
    requires s != []
    ensures var rest := SplitAfter(s[1..]);
            SplitAfter(s) == if s[0] == '\n' then ["\n"] + rest else [[s[0]] + rest[0]] + rest[1..]
  {
  }

  lemma {:induction false} JoinSplitAfter(s: string)
    ensures Join(SplitAfter(s)) == s
  {
    if s != [] {
      hide SplitAfter, Join;
      JoinSplitAfter(s[1..]);
      SplitStep(s);
      var rest := SplitAfter(s[1..]);
      assert s == [s[0]] + s[1..];
      assert rest == [rest[0]] + rest[1..];
      JoinCons(rest[0], rest[1..]);
      if s[0] == '\n' {
        JoinCons("\n", rest);
      } else {
        JoinCons([s[0]] + rest[0], rest[1..]);
        assert [s[0]] + rest[0] + Join(rest[1..]) == [s[0]] + (rest[0] + Join(rest[1..]));
      }
    }
  }

  lemma {:induction false} JoinConcat(s: seq<string>, t: seq<string>)
    ensures Join(s + t) == Join(s) + Join(t)
  {
    if s == [] {
      assert s + t == t;
    } else {
      assert (s + t)[1..] == s[1..] + t && (s + t)[0] == s[0];
      JoinConcat(s[1..], t);
      assert s[0] + (Join(s[1..]) + Join(t)) == (s[0] + Join(s[1..])) + Join(t);
    }
  }

  lemma JoinSplitLines(s: string)
    ensures Join(SplitWithNewlines(s)) == s && Join(SplitLines(s)) == s
  {
    JoinSplitAfter(s);
    if s != "" {
      var lines := SplitAfter(s);
      var init, last := lines[..|lines| - 1], lines[|lines| - 1];
      assert lines == init + [last] && [last][1..] == [];
      JoinConcat(init, [last]);
    }
  }

  /** The newline is at the end or nowhere. */
  predicate NewlineLast(line: string) {
    forall k :: 0 <= k < |line| - 1 ==> line[k] != '\n'
  }

  predicate Ended(line: string) {
    line != "" && line[|line| - 1] == '\n'
  }

  lemma NewlineLastStep(c: char, line: string)
    requires c != '\n' && NewlineLast(line)
    ensures NewlineLast([c] + line) && (Ended(line) ==> Ended([c] + line))
    ensures '\n' !in line ==> '\n' !in [c] + line
  {
    forall k | 0 <= k < |[c] + line| - 1
      ensures ([c] + line)[k] != '\n'
    {
      assert k > 0 ==> ([c] + line)[k] == line[k - 1];
    }
  }

  /** Every line but the last ends in its only newline, and the last has none. */
  predicate AreLines(lines: seq<string>) {
    && lines != []
    && (forall i :: 0 <= i < |lines| ==> NewlineLast(lines[i]))
    && (forall i :: 0 <= i < |lines| - 1 ==> Ended(lines[i]))
    && '\n' !in lines[|lines| - 1]
  }

  lemma AreLinesCons(line: string, rest: seq<string>)
    requires AreLines(rest) && NewlineLast(line) && Ended(line)
    ensures AreLines([line] + rest)
  {
    hide NewlineLast, Ended;
  }

  lemma AreLinesGrow(c: char, rest: seq<string>)
    requires AreLines(rest) && c != '\n'
    ensures AreLines([[c] + rest[0]] + rest[1..])
  {
    hide NewlineLast, Ended;
    NewlineLastStep(c, rest[0]);
    assert forall i :: 1 <= i < |rest| ==> ([[c] + rest[0]] + rest[1..])[i] == rest[i];
  }

  lemma {:induction false} LinesAreLines(s: string)
    ensures AreLines(SplitAfter(s))
  {
    if s != [] {
      hide SplitAfter, AreLines;
      LinesAreLines(s[1..]);
      SplitStep(s);
      if s[0] != '\n' {
        AreLinesGrow(s[0], SplitAfter(s[1..]));
      } else {
        AreLinesCons("\n", SplitAfter(s[1..]));
      }
    }
  }
}
