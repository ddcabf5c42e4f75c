/** The line-oriented diff of internal/runtime/lab.go: a longest-common-subsequence table filled
    from the back, then one walk that writes the script. */
module LineDiff {
  import opened Lines

  // ---------- edit scripts ----------

  datatype Edit = Keep(line: string) | Drop(line: string) | Add(line: string)

  function Prefixed(e: Edit): string {
    match e
    case Keep(line) => "  " + line
    case Drop(line) => "- " + line
    case Add(line) => "+ " + line
  }

  /** The lines a script leaves on the side of want, of got, and on both. */
  function WantSide(script: seq<Edit>): seq<string> {
    if script == [] then []
    else (if script[0].Add? then [] else [script[0].line]) + WantSide(script[1..])
  }

  function GotSide(script: seq<Edit>): seq<string> {
    if script == [] then []
    else (if script[0].Drop? then [] else [script[0].line]) + GotSide(script[1..])
  }

  function Kept(script: seq<Edit>): seq<string> {
    if script == [] then []
    else (if script[0].Keep? then [script[0].line] else []) + Kept(script[1..])
  }

  /** How many lines a script drops or adds. */
  function Cost(script: seq<Edit>): nat {
    if script == [] then 0 else (if script[0].Keep? then 0 else 1) + Cost(script[1..])
  }

  predicate Turns(script: seq<Edit>, want: seq<string>, got: seq<string>) {
    WantSide(script) == want && GotSide(script) == got
  }

  function Printed(script: seq<Edit>): seq<string> {
    seq(|script|, k requires 0 <= k < |script| => Prefixed(script[k]))
  }

  /** The script a printed diff line list spells. */
  function Parse(lines: seq<string>): seq<Edit>
    requires forall k :: 0 <= k < |lines| ==> |lines[k]| >= 2
  {
    seq(|lines|, k requires 0 <= k < |lines| =>
      var text := lines[k][2..];
      if lines[k][..2] == "- " then Drop(text) else if lines[k][..2] == "+ " then Add(text) else Keep(text))
  }

  /** out, read line by line, is a script that turns want into got. */
  ghost predicate IsDiff(out: string, want: string, got: string) {
    && (forall k :: 0 <= k < |Split(out)| ==> |Split(out)[k]| >= 2)
    && Turns(Parse(Split(out)), Split(want), Split(got))
  }

  // ---------- common subsequences ----------

  predicate IsSubsequence(c: seq<string>, s: seq<string>) {
    c == [] || (s != [] && ((c[0] == s[0] && IsSubsequence(c[1..], s[1..])) || IsSubsequence(c, s[1..])))
  }

  lemma {:induction false} DropOne(c: seq<string>, s: seq<string>)
    requires c != [] && IsSubsequence(c, s)
    ensures IsSubsequence(c[1..], s)
  {
    if IsSubsequence(c, s[1..]) {
      DropOne(c, s[1..]);
    }
  }

  lemma {:induction false} DropBoth(c: seq<string>, s: seq<string>)
    requires c != [] && IsSubsequence(c, s)
    ensures s != [] && IsSubsequence(c[1..], s[1..])
  {
    if IsSubsequence(c, s[1..]) {
      DropOne(c, s[1..]);
    }
  }

  // ---------- the table ----------

  /** The entry lcs[i][j]: the best for the lines from i of a and from j of b. */
  function Best(a: seq<string>, b: seq<string>, i: nat, j: nat): nat
    requires i <= |a| && j <= |b|
    decreases |a| - i + |b| - j
  {
    if i == |a| || j == |b| then 0
    else if a[i] == b[j] then Best(a, b, i + 1, j + 1) + 1
    else if Best(a, b, i + 1, j) >= Best(a, b, i, j + 1) then Best(a, b, i + 1, j)
    else Best(a, b, i, j + 1)
  }

  /** The script the walk writes from (i, j). */
  function Walk(a: seq<string>, b: seq<string>, i: nat, j: nat): seq<Edit>
    requires i <= |a| && j <= |b|
    decreases |a| - i + |b| - j
  {
    if i < |a| && j < |b| then
      if a[i] == b[j] then [Keep(a[i])] + Walk(a, b, i + 1, j + 1)
      else if Best(a, b, i + 1, j) >= Best(a, b, i, j + 1) then [Drop(a[i])] + Walk(a, b, i + 1, j)
      else [Add(b[j])] + Walk(a, b, i, j + 1)
    else if i < |a| then [Drop(a[i])] + Walk(a, b, i + 1, j)
    else if j < |b| then [Add(b[j])] + Walk(a, b, i, j + 1)
    else []
  }

  /** The first edit of the walk. */
  lemma WalkUnfolds(a: seq<string>, b: seq<string>, i: nat, j: nat)
    requires i <= |a| && j <= |b|
    ensures i < |a| && j < |b| && a[i] == b[j] ==> Walk(a, b, i, j) == [Keep(a[i])] + Walk(a, b, i + 1, j + 1)
    ensures i < |a| && j < |b| && a[i] != b[j] && Best(a, b, i + 1, j) >= Best(a, b, i, j + 1) ==>
              Walk(a, b, i, j) == [Drop(a[i])] + Walk(a, b, i + 1, j)
    ensures i < |a| && j < |b| && a[i] != b[j] && Best(a, b, i + 1, j) < Best(a, b, i, j + 1) ==>
              Walk(a, b, i, j) == [Add(b[j])] + Walk(a, b, i, j + 1)
    ensures i < |a| && j == |b| ==> Walk(a, b, i, j) == [Drop(a[i])] + Walk(a, b, i + 1, j)
    ensures i == |a| && j < |b| ==> Walk(a, b, i, j) == [Add(b[j])] + Walk(a, b, i, j + 1)
    ensures i == |a| && j == |b| ==> Walk(a, b, i, j) == [] && Text([]) == ""
  {
  }

  method FillTable(a: seq<string>, b: seq<string>) returns (lcs: array2<nat>)
    ensures fresh(lcs) && lcs.Length0 == |a| + 1 && lcs.Length1 == |b| + 1
    ensures forall i, j :: 0 <= i <= |a| && 0 <= j <= |b| ==> lcs[i, j] == Best(a, b, i, j)
  {
    lcs := new nat[|a| + 1, |b| + 1]((_, _) => 0);
    var i := |a| - 1;
    while i >= 0
      invariant -1 <= i < |a|
      invariant forall x :: i < x <= |a| ==> RowDone(a, b, lcs, x)
      invariant forall x :: 0 <= x <= |a| ==> lcs[x, |b|] == 0
    {
      label Before:
      FillRow(a, b, lcs, i);
      forall x | i < x <= |a| ensures RowDone(a, b, lcs, x) {
        assert old@Before(RowDone(a, b, lcs, x));
      }
      i := i - 1;
    }
    forall i, j | 0 <= i <= |a| && 0 <= j <= |b| ensures lcs[i, j] == Best(a, b, i, j) {
      assert RowDone(a, b, lcs, i);
    }
  }

  ghost predicate RowDone(a: seq<string>, b: seq<string>, lcs: array2<nat>, x: nat)
    requires lcs.Length0 == |a| + 1 && lcs.Length1 == |b| + 1 && x <= |a|
    reads lcs
  {
    forall y :: 0 <= y <= |b| ==> lcs[x, y] == Best(a, b, x, y)
  }

  /** The inner loop: row i from row i + 1. */
  method FillRow(a: seq<string>, b: seq<string>, lcs: array2<nat>, i: nat)
    requires lcs.Length0 == |a| + 1 && lcs.Length1 == |b| + 1 && i < |a|
    requires RowDone(a, b, lcs, i + 1) && lcs[i, |b|] == 0
    modifies lcs
    ensures RowDone(a, b, lcs, i)
    ensures forall x, y :: 0 <= x <= |a| && 0 <= y <= |b| && x != i ==> lcs[x, y] == old(lcs[x, y])
    ensures lcs[i, |b|] == 0
  {
    var j := |b| - 1;
    while j >= 0
      invariant -1 <= j < |b|
      invariant forall y :: j < y <= |b| ==> lcs[i, y] == Best(a, b, i, y)
      invariant forall x, y :: 0 <= x <= |a| && 0 <= y <= |b| && x != i ==> lcs[x, y] == old(lcs[x, y])
      invariant lcs[i, |b|] == 0
    {
      assert lcs[i + 1, j] == Best(a, b, i + 1, j) && lcs[i + 1, j + 1] == Best(a, b, i + 1, j + 1);
      if a[i] == b[j] {
        lcs[i, j] := lcs[i + 1, j + 1] + 1;
      } else if lcs[i + 1, j] >= lcs[i, j + 1] {
        lcs[i, j] := lcs[i + 1, j];
      } else {
        lcs[i, j] := lcs[i, j + 1];
      }
      j := j - 1;
    }
  }

  // ---------- the walk is a shortest script ----------

  lemma {:induction false} WalkTurns(a: seq<string>, b: seq<string>, i: nat, j: nat)
    requires i <= |a| && j <= |b|
    ensures Turns(Walk(a, b, i, j), a[i..], b[j..])
    ensures |Kept(Walk(a, b, i, j))| == Best(a, b, i, j)
    decreases |a| - i + |b| - j
  {
    if i < |a| { assert a[i..] == [a[i]] + a[i + 1..]; }
    if j < |b| { assert b[j..] == [b[j]] + b[j + 1..]; }
    if i < |a| && j < |b| {
      if a[i] == b[j] { WalkTurns(a, b, i + 1, j + 1); }
      else if Best(a, b, i + 1, j) >= Best(a, b, i, j + 1) { WalkTurns(a, b, i + 1, j); }
      else { WalkTurns(a, b, i, j + 1); }
    } else if i < |a| {
      WalkTurns(a, b, i + 1, j);
    } else if j < |b| {
      WalkTurns(a, b, i, j + 1);
    }
  }

  /** No common subsequence is longer than the table's entry. */
  lemma {:induction false} BestIsBest(a: seq<string>, b: seq<string>, i: nat, j: nat, c: seq<string>)
    requires i <= |a| && j <= |b| && IsSubsequence(c, a[i..]) && IsSubsequence(c, b[j..])
    ensures |c| <= Best(a, b, i, j)
    decreases |a| - i + |b| - j
  {
    if c != [] {
      assert i < |a| && a[i..][1..] == a[i + 1..] && j < |b| && b[j..][1..] == b[j + 1..];
      if a[i] == b[j] {
        DropBoth(c, a[i..]);
        DropBoth(c, b[j..]);
        BestIsBest(a, b, i + 1, j + 1, c[1..]);
      } else if c[0] != a[i] {
        BestIsBest(a, b, i + 1, j, c);
      } else {
        BestIsBest(a, b, i, j + 1, c);
      }
    }
  }

  /** What a script keeps is common to both sides, and the rest is its cost. */
  lemma {:induction false} KeptIsCommon(script: seq<Edit>)
    ensures IsSubsequence(Kept(script), WantSide(script)) && IsSubsequence(Kept(script), GotSide(script))
    ensures Cost(script) == |WantSide(script)| + |GotSide(script)| - 2 * |Kept(script)|
  {
    if script != [] {
      var rest := script[1..];
      KeptIsCommon(rest);
      var k, w, g := Kept(script), WantSide(script), GotSide(script);
      match script[0]
      case Keep(_) => assert k[1..] == Kept(rest) && w[1..] == WantSide(rest) && g[1..] == GotSide(rest);
      case Drop(_) => assert k == Kept(rest) && w[1..] == WantSide(rest) && g == GotSide(rest);
      case Add(_) => assert k == Kept(rest) && w == WantSide(rest) && g[1..] == GotSide(rest);
    }
  }

  /** The walk keeps a longest common subsequence and is a cheapest script. */
  lemma WalkIsMinimal(a: seq<string>, b: seq<string>)
    ensures Turns(Walk(a, b, 0, 0), a, b)
    ensures forall c :: IsSubsequence(c, a) && IsSubsequence(c, b) ==> |c| <= |Kept(Walk(a, b, 0, 0))|
    ensures forall s :: Turns(s, a, b) ==> Cost(Walk(a, b, 0, 0)) <= Cost(s)
  {
    assert a[0..] == a && b[0..] == b;
    WalkTurns(a, b, 0, 0);
    KeptIsCommon(Walk(a, b, 0, 0));
    forall c | IsSubsequence(c, a) && IsSubsequence(c, b) ensures |c| <= |Kept(Walk(a, b, 0, 0))| {
      BestIsBest(a, b, 0, 0, c);
    }
    forall s | Turns(s, a, b) ensures Cost(Walk(a, b, 0, 0)) <= Cost(s) {
      KeptIsCommon(s);
      BestIsBest(a, b, 0, 0, Kept(s));
    }
  }

  /** The order in which the walk prefers edits. */
  function Order(e: Edit): nat { match e case Keep(_) => 0 case Drop(_) => 1 case Add(_) => 2 }

  predicate Before(s: seq<Edit>, t: seq<Edit>) {
    s != [] && t != [] && (Order(s[0]) < Order(t[0]) || (s[0] == t[0] && Before(s[1..], t[1..])))
  }

  /** Of the cheapest scripts the walk is the one that keeps first, then drops, then adds. */
  lemma {:induction false} WalkIsFirst(a: seq<string>, b: seq<string>, i: nat, j: nat, s: seq<Edit>)
    requires i <= |a| && j <= |b| && Turns(s, a[i..], b[j..]) && |Kept(s)| >= Best(a, b, i, j)
    ensures s == Walk(a, b, i, j) || Before(Walk(a, b, i, j), s)
    decreases |s|
  {
    hide Walk, IsSubsequence, WantSide, GotSide, Kept, Best;
    WalkUnfolds(a, b, i, j);
    BestUnfolds(a, b, i, j);
    if s == [] {
      SidesUnfold(s);
    } else {
      var rest := s[1..];
      SidesUnfold(s);
      if i < |a| { assert a[i..] == [a[i]] + a[i + 1..]; }
      if j < |b| { assert b[j..] == [b[j]] + b[j + 1..]; }
      match s[0]
      case Keep(_) =>
        assert WantSide(rest) == a[i..][1..] && GotSide(rest) == b[j..][1..];
        WalkIsFirst(a, b, i + 1, j + 1, rest);
      case Drop(_) =>
        assert WantSide(rest) == a[i..][1..];
        KeptIsCommon(rest);
        BestIsBest(a, b, i + 1, j, Kept(rest));
        BestUnfolds(a, b, i + 1, j);
        if j == |b| || (a[i] != b[j] && Best(a, b, i + 1, j) >= Best(a, b, i, j + 1)) { WalkIsFirst(a, b, i + 1, j, rest); }
      case Add(_) =>
        assert GotSide(rest) == b[j..][1..];
        BestUnfolds(a, b, i, j + 1);
        if i == |a| || (a[i] != b[j] && Best(a, b, i + 1, j) < Best(a, b, i, j + 1)) { WalkIsFirst(a, b, i, j + 1, rest); }
    }
  }

  lemma SidesUnfold(s: seq<Edit>)
    ensures s == [] ==> WantSide(s) == GotSide(s) == Kept(s) == []
    ensures s != [] ==>
              var e, rest := s[0], s[1..];
              && WantSide(s) == (if e.Add? then WantSide(rest) else [e.line] + WantSide(rest))
              && GotSide(s) == (if e.Drop? then GotSide(rest) else [e.line] + GotSide(rest))
              && Kept(s) == (if e.Keep? then [e.line] + Kept(rest) else Kept(rest))
  {
  }

  lemma BestUnfolds(a: seq<string>, b: seq<string>, i: nat, j: nat)
    requires i <= |a| && j <= |b|
    ensures i == |a| || j == |b| ==> Best(a, b, i, j) == 0
    ensures i < |a| && j < |b| ==>
              Best(a, b, i, j) == if a[i] == b[j] then Best(a, b, i + 1, j + 1) + 1 else Max(Best(a, b, i + 1, j), Best(a, b, i, j + 1))
  {
  }

  function Max(x: nat, y: nat): nat { if x >= y then x else y }

  lemma CheapestIsFirst(a: seq<string>, b: seq<string>, s: seq<Edit>)
    requires Turns(s, a, b) && Cost(s) <= Cost(Walk(a, b, 0, 0))
    ensures s == Walk(a, b, 0, 0) || Before(Walk(a, b, 0, 0), s)
  {
    assert a[0..] == a && b[0..] == b;
    WalkTurns(a, b, 0, 0);
    KeptIsCommon(s);
    KeptIsCommon(Walk(a, b, 0, 0));
    WalkIsFirst(a, b, 0, 0, s);
  }

  // ---------- the printed script ----------

  function Text(script: seq<Edit>): string {
    if script == [] then "" else Prefixed(script[0]) + "\n" + Text(script[1..])
  }

  predicate LineScript(script: seq<Edit>) { forall k :: 0 <= k < |script| ==> IsLine(script[k].line) }

  lemma {:induction false} WalkHasLines(a: seq<string>, b: seq<string>, i: nat, j: nat)
    requires i <= |a| && j <= |b| && AreLines(a) && AreLines(b)
    ensures LineScript(Walk(a, b, i, j)) && |Walk(a, b, i, j)| >= |a| - i
    decreases |a| - i + |b| - j
  {
    hide Walk;
    hide Best;
    WalkUnfolds(a, b, i, j);
    if i < |a| && j < |b| {
      if a[i] == b[j] { WalkHasLines(a, b, i + 1, j + 1); }
      else if Best(a, b, i + 1, j) >= Best(a, b, i, j + 1) { WalkHasLines(a, b, i + 1, j); }
      else { WalkHasLines(a, b, i, j + 1); }
    } else if i < |a| {
      WalkHasLines(a, b, i + 1, j);
    } else if j < |b| {
      WalkHasLines(a, b, i, j + 1);
    }
  }

  /** The text is the printed lines, each ended by a newline of its own. */
  lemma {:induction false} TextIsJoin(script: seq<Edit>)
    requires script != [] && LineScript(script)
    ensures Text(script) == Join(Printed(script)) + "\n"
    ensures Join(Printed(script)) != "" && Join(Printed(script))[|Join(Printed(script))| - 1] != '\n'
  {
    var ls := Printed(script);
    if |script| == 1 {
      assert script[1..] == [];
      assert IsLine(script[0].line);
      assert ls[0][|ls[0]| - 1] in ls[0];
    } else {
      TextIsJoin(script[1..]);
      assert ls[1..] == Printed(script[1..]);
      assert Text(script) == Prefixed(script[0]) + "\n" + (Join(ls[1..]) + "\n");
    }
  }

  /** Trimming and splitting the text gives the printed lines back, and parsing them the script. */
  lemma TextParses(script: seq<Edit>)
    requires script != [] && LineScript(script)
    ensures Split(TrimNewlines(Text(script))) == Printed(script)
    ensures Parse(Printed(script)) == script
  {
    TextIsJoin(script);
    TrimOneNewline(Join(Printed(script)));
    PrintedAreLines(script);
    SplitJoin(Printed(script));
    ParsePrinted(script);
  }

  lemma TrimOneNewline(s: string)
    requires s != "" && s[|s| - 1] != '\n'
    ensures TrimNewlines(s + "\n") == s
  {
    assert (s + "\n")[..|s|] == s;
    assert TrimNewlines(s) == s;
  }

  lemma PrintedAreLines(script: seq<Edit>)
    requires LineScript(script)
    ensures AreLines(Printed(script))
  {
    forall k | 0 <= k < |script| ensures IsLine(Printed(script)[k]) {
      assert IsLine(script[k].line);
    }
  }

  lemma ParsePrinted(script: seq<Edit>)
    ensures Parse(Printed(script)) == script
  {
    var ls := Printed(script);
    forall k | 0 <= k < |script| ensures Parse(ls)[k] == script[k] {
      assert ls[k] == Prefixed(script[k]);
      assert ls[k][2..] == script[k].line;
      assert Prefixed(script[k])[..2] == match script[k] case Keep(_) => "  " case Drop(_) => "- " case Add(_) => "+ ";
    }
  }

  /** The walk and the two loops that write what is left of one side. */
  method WriteScript(a: seq<string>, b: seq<string>, lcs: array2<nat>) returns (out: string)
    requires lcs.Length0 == |a| + 1 && lcs.Length1 == |b| + 1
    requires forall i, j :: 0 <= i <= |a| && 0 <= j <= |b| ==> lcs[i, j] == Best(a, b, i, j)
    ensures out == Text(Walk(a, b, 0, 0))
  {
    hide Walk;
    hide Best;
    hide Text;
    out := "";
    var i, j := 0, 0;
    assert "" + Text(Walk(a, b, 0, 0)) == Text(Walk(a, b, 0, 0));
    while i < |a| && j < |b|
      invariant 0 <= i <= |a| && 0 <= j <= |b|
      invariant out + Text(Walk(a, b, i, j)) == Text(Walk(a, b, 0, 0))
      decreases |a| - i + |b| - j
    {
      WalkUnfolds(a, b, i, j);
      if a[i] == b[j] {
        WriteStep(out, Keep(a[i]), Walk(a, b, i + 1, j + 1));
        out := out + ("  " + a[i] + "\n");
        i, j := i + 1, j + 1;
      } else if lcs[i + 1, j] >= lcs[i, j + 1] {
        WriteStep(out, Drop(a[i]), Walk(a, b, i + 1, j));
        out := out + ("- " + a[i] + "\n");
        i := i + 1;
      } else {
        WriteStep(out, Add(b[j]), Walk(a, b, i, j + 1));
        out := out + ("+ " + b[j] + "\n");
        j := j + 1;
      }
    }
    while i < |a|
      invariant 0 <= i <= |a| && 0 <= j <= |b| && (i == |a| || j == |b|)
      invariant out + Text(Walk(a, b, i, j)) == Text(Walk(a, b, 0, 0))
    {
      WalkUnfolds(a, b, i, j);
      WriteStep(out, Drop(a[i]), Walk(a, b, i + 1, j));
      out := out + ("- " + a[i] + "\n");
      i := i + 1;
    }
    while j < |b|
      invariant i == |a| && 0 <= j <= |b|
      invariant out + Text(Walk(a, b, i, j)) == Text(Walk(a, b, 0, 0))
    {
      WalkUnfolds(a, b, i, j);
      WriteStep(out, Add(b[j]), Walk(a, b, i, j + 1));
      out := out + ("+ " + b[j] + "\n");
      j := j + 1;
    }
    WalkUnfolds(a, b, i, j);
    assert out + "" == out;
  }

  lemma WriteStep(out: string, e: Edit, rest: seq<Edit>)
    ensures out + Text([e] + rest) == out + (Prefixed(e) + "\n") + Text(rest)
  {
    assert ([e] + rest)[1..] == rest;
  }

  /** The diff spells both texts, keeps as many lines as any common subsequence of them has, and
      no script from want to got drops and adds fewer. */
  method Diff(want: string, got: string) returns (out: string)
    ensures IsDiff(out, want, got)
    ensures forall c :: IsSubsequence(c, Split(want)) && IsSubsequence(c, Split(got)) ==>
              |c| <= |Kept(Parse(Split(out)))|
    ensures forall s :: Turns(s, Split(want), Split(got)) ==> Cost(Parse(Split(out))) <= Cost(s)
    ensures forall s :: Turns(s, Split(want), Split(got)) && Cost(s) <= Cost(Parse(Split(out))) ==>
              s == Parse(Split(out)) || Before(Parse(Split(out)), s)
    ensures forall k :: 0 <= k < |Split(out)| ==> Split(out)[k][..2] in {"  ", "- ", "+ "}
    ensures LinesBut(Split(out), "+ ") == Split(want) && LinesBut(Split(out), "- ") == Split(got)
  {
    var a, b := Split(want), Split(got);
    var lcs := FillTable(a, b);
    var text := WriteScript(a, b, lcs);
    out := TrimNewlines(text);
    WalkHasLines(a, b, 0, 0);
    TextParses(Walk(a, b, 0, 0));
    WalkIsMinimal(a, b);
    forall s | Turns(s, a, b) && Cost(s) <= Cost(Walk(a, b, 0, 0)) ensures s == Walk(a, b, 0, 0) || Before(Walk(a, b, 0, 0), s) {
      CheapestIsFirst(a, b, s);
    }
    SidesOfPrinted(Walk(a, b, 0, 0));
  }

  /** What stands behind the first two characters of the lines that do not begin with mark. */
  function LinesBut(lines: seq<string>, mark: string): seq<string> {
    if lines == [] then []
    else (if |lines[0]| < 2 || lines[0][..2] == mark then [] else [lines[0][2..]]) + LinesBut(lines[1..], mark)
  }

  lemma {:induction false} SidesOfPrinted(script: seq<Edit>)
    ensures LinesBut(Printed(script), "+ ") == WantSide(script) && LinesBut(Printed(script), "- ") == GotSide(script)
    ensures forall k :: 0 <= k < |script| ==> |Printed(script)[k]| >= 2 && Printed(script)[k][..2] in {"  ", "- ", "+ "}
  {
    if script != [] {
      SidesOfPrinted(script[1..]);
      assert Printed(script)[1..] == Printed(script[1..]);
      assert Prefixed(script[0])[..2] == match script[0] case Keep(_) => "  " case Drop(_) => "- " case Add(_) => "+ ";
      assert Prefixed(script[0])[2..] == script[0].line;
      forall k | 0 <= k < |script| ensures |Printed(script)[k]| >= 2 && Printed(script)[k][..2] in {"  ", "- ", "+ "} {
        if k > 0 { assert Printed(script)[k] == Printed(script[1..])[k - 1]; }
      }
    }
  }

  /** A diff alone is enough to recover both texts. */
  lemma DiffRecoversTexts(out: string, want: string, got: string)
    requires IsDiff(out, want, got)
    ensures Join(WantSide(Parse(Split(out)))) == want && Join(GotSide(Parse(Split(out)))) == got
  {
    JoinSplit(want);
    JoinSplit(got);
  }
}
