/** Splitting a text at its newlines and joining it back (strings.Split, strings.Join and
    strings.TrimRight as internal/runtime/lab.go uses them). */
module Lines {

  predicate IsLine(s: string) { '\n' !in s }

  predicate AreLines(ls: seq<string>) { forall k :: 0 <= k < |ls| ==> IsLine(ls[k]) }

  /** At least one line, even for the empty text. */
  function Split(s: string): (ls: seq<string>)
    ensures ls != [] && AreLines(ls)
  {
    if s == "" then [""]
    else
      var rest := Split(s[1..]);
      if s[0] == '\n' then [""] + rest else [[s[0]] + rest[0]] + rest[1..]
  }

  function Join(ls: seq<string>): string {
    if ls == [] then "" else if |ls| == 1 then ls[0] else ls[0] + "\n" + Join(ls[1..])
  }

  function TrimNewlines(s: string): string {
    if s != "" && s[|s| - 1] == '\n' then TrimNewlines(s[..|s| - 1]) else s
  }

  /** Putting a character in front of the first line puts it in front of the text. */
  lemma JoinFirst(c: char, ls: seq<string>)
    requires ls != []
    ensures Join([[c] + ls[0]] + ls[1..]) == [c] + Join(ls)
  {
    var more := [[c] + ls[0]] + ls[1..];
    assert more[1..] == ls[1..];
    if |ls| > 1 {
      var tail := "\n" + Join(ls[1..]);
      assert Join(ls) == ls[0] + tail by { assert Join(ls) == ls[0] + "\n" + Join(ls[1..]); }
      assert Join(more) == more[0] + tail by { assert Join(more) == more[0] + "\n" + Join(more[1..]); }
    }
  }

  lemma {:induction false} JoinSplit(s: string)
    ensures Join(Split(s)) == s
  {
    if s != "" {
      JoinSplit(s[1..]);
      var rest := Split(s[1..]);
      assert s == [s[0]] + s[1..];
      if s[0] == '\n' {
        assert ([""] + rest)[1..] == rest;
      } else {
        JoinFirst(s[0], rest);
      }
    }
  }

  lemma {:induction false} SplitLine(line: string)
    requires IsLine(line)
    ensures Split(line) == [line]
  {
    if line != "" {
      SplitLine(line[1..]);
      assert line == [line[0]] + line[1..];
    }
  }

  lemma {:induction false} SplitFirst(line: string, s: string)
    requires IsLine(line)
    ensures Split(line + "\n" + s) == [line] + Split(s)
  {
    var whole := line + "\n" + s;
    if line == "" {
      assert whole[1..] == s;
    } else {
      SplitFirst(line[1..], s);
      assert whole[1..] == line[1..] + "\n" + s;
      assert line == [line[0]] + line[1..];
    }
  }

  lemma {:induction false} SplitJoin(ls: seq<string>)
    requires ls != [] && AreLines(ls)
    ensures Split(Join(ls)) == ls
  {
    if |ls| == 1 {
      SplitLine(ls[0]);
    } else {
      SplitJoin(ls[1..]);
      SplitFirst(ls[0], Join(ls[1..]));
    }
  }
}
