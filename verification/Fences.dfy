/** The fenced code blocks of a chat message (phase 1 of maskNonProse in
    internal/runtime/chatkw.go): which lines a fence hides. */
module Fences {
  import opened Lines
  import opened Utf8

  function Fill(n: nat, hidden: bool): (r: seq<bool>)
    ensures |r| == n && forall k :: 0 <= k < n ==> r[k] == hidden
  {
    seq(n, _ => hidden)
  }

  // ---------- fences ----------

  /** The end of the run of c that begins at i. */
  function RunEnd(text: Text, i: nat, c: Byte): (e: nat)
    requires i <= |text|
    ensures i <= e <= |text| && (forall k :: i <= k < e ==> text[k] == c) && (e < |text| ==> text[e] != c)
    ensures i < |text| && text[i] == c ==> i < e
    decreases |text| - i
  {
    if i < |text| && text[i] == c then RunEnd(text, i + 1, c) else i
  }

  /** Leading spaces, at most three, and the length of the run of backticks or tildes after them. */
  datatype Marker = Marker(indent: nat, length: nat)

  function Indent(line: Text): (indent: nat)
    ensures indent <= |line| && indent <= 3
  {
    if RunEnd(line, 0, ' ') < 3 then RunEnd(line, 0, ' ') else 3
  }

  function FenceMarker(line: Text): (m: Marker)
    ensures m.indent + m.length <= |line|
    ensures m.length > 0 ==> line[m.indent] == '`' || line[m.indent] == '~'
    ensures forall k :: m.indent <= k < m.indent + m.length ==> line[k] == line[m.indent]
  {
    var indent := Indent(line);
    if indent < |line| && (line[indent] == '`' || line[indent] == '~')
    then Marker(indent, RunEnd(line, indent, line[indent]) - indent)
    else Marker(indent, 0)
  }

  datatype Fence = Outside | Inside(c: Byte, length: nat)

  /** A fence needs three; a backtick fence has no backtick in its info string. */
  predicate Opens(line: Text) {
    var m := FenceMarker(line);
    m.length >= 3 && !(line[m.indent] == '`' && '`' in line[m.indent + m.length..])
  }

  function Opened(line: Text): (fence: Fence)
    requires Opens(line)
    ensures fence.Inside?
  {
    var m := FenceMarker(line);
    Inside(line[m.indent], m.length)
  }

  /** The same character, at least as often, and nothing else on the line. */
  predicate Closes(line: Text, fence: Fence)
    requires fence.Inside?
  {
    var m := FenceMarker(line);
    m.length > 0 && m.length >= fence.length && line[m.indent] == fence.c
    && TrimSpace(line[m.indent + m.length..]) == ""
  }

  /** The line is up to three spaces, n times c, and whatever follows. */
  predicate HasRun(line: Text, indent: nat, c: Byte, n: nat) {
    && indent <= 3 && n > 0 && indent + n <= |line| && (c == '`' || c == '~')
    && (forall k :: 0 <= k < indent ==> line[k] == ' ')
    && (forall k :: indent <= k < indent + n ==> line[k] == c)
  }

  lemma MarkerIsTheRun(line: Text, indent: nat, c: Byte, n: nat)
    requires HasRun(line, indent, c, n)
    ensures FenceMarker(line).indent == indent && FenceMarker(line).length >= n && line[indent] == c
    ensures indent + n < |line| && line[indent + n] != c ==> FenceMarker(line).length == n
  {
    RunReaches(line, 0, ' ', indent);
    RunReaches(line, indent, c, indent + n);
  }

  lemma {:induction false} RunReaches(text: Text, i: nat, c: Byte, e: nat)
    requires i <= e <= |text| && forall k :: i <= k < e ==> text[k] == c
    ensures RunEnd(text, i, c) >= e && (e < |text| && text[e] != c ==> RunEnd(text, i, c) == e)
    decreases e - i
  {
    if i < e { RunReaches(text, i + 1, c, e); }
  }

  lemma SuffixLacks(text: Text, lo: nat, hi: nat, c: Byte)
    requires lo <= hi <= |text| && c !in text[lo..]
    ensures c !in text[hi..]
  {
    assert text[lo..][hi - lo..] == text[hi..];
  }

  lemma TheMarkerIsARun(line: Text)
    ensures var m := FenceMarker(line);
            m.length > 0 ==> HasRun(line, m.indent, line[m.indent], m.length)
                             && (m.indent + m.length < |line| ==> line[m.indent + m.length] != line[m.indent])
  {
  }

  /** Three or more backticks or tildes open a fence of their number, after at most three spaces; no
      backtick may follow backticks. */
  lemma OpensExactlyWhen(line: Text)
    ensures Opens(line) <==>
            exists indent: nat, c: Byte, n: nat ::
              HasRun(line, indent, c, n) && n >= 3 && (c == '`' ==> '`' !in line[indent + n..])
    ensures Opens(line) ==>
              var f := Opened(line);
              exists indent: nat ::
                HasRun(line, indent, f.c, f.length) && (indent + f.length < |line| ==> line[indent + f.length] != f.c)
  {
    TheMarkerIsARun(line);
    var m := FenceMarker(line);
    if Opens(line) {
      assert HasRun(line, m.indent, line[m.indent], m.length);
      assert Opened(line) == Inside(line[m.indent], m.length);
    }
    if indent: nat, c: Byte, n: nat :|
      HasRun(line, indent, c, n) && n >= 3 && (c == '`' ==> '`' !in line[indent + n..])
    {
      MarkerIsTheRun(line, indent, c, n);
      if c == '`' { SuffixLacks(line, indent + n, m.indent + m.length, c); }
    }
  }

  /** As many of the same close it, after at most three spaces, with only white space behind. */
  lemma ClosesExactlyWhen(line: Text, fence: Fence)
    requires fence.Inside?
    ensures Closes(line, fence) <==>
            exists indent: nat, n: nat ::
              HasRun(line, indent, fence.c, n) && n >= fence.length
              && (indent + n < |line| ==> line[indent + n] != fence.c) && TrimSpace(line[indent + n..]) == ""
  {
    hide TrimSpace;
    TheMarkerIsARun(line);
    var m := FenceMarker(line);
    if Closes(line, fence) { assert HasRun(line, m.indent, fence.c, m.length); }
    if indent: nat, n: nat :|
      HasRun(line, indent, fence.c, n) && n >= fence.length
      && (indent + n < |line| ==> line[indent + n] != fence.c) && TrimSpace(line[indent + n..]) == ""
    {
      MarkerIsTheRun(line, indent, fence.c, n);
    }
  }

  function NextFence(fence: Fence, line: Text): Fence {
    match fence
    case Inside(_, _) => if Closes(line, fence) then Outside else fence
    case Outside => if Opens(line) then Opened(line) else Outside
  }

  /** The opening line, the lines inside and the closing line are hidden; their newlines are not. */
  predicate Hides(fence: Fence, line: Text) { fence.Inside? || Opens(line) }

  function LinesMask(lines: seq<Text>, fence: Fence): seq<bool>
    requires lines != []
  {
    Fill(|lines[0]|, Hides(fence, lines[0]))
    + if |lines| == 1 then [] else [false] + LinesMask(lines[1..], NextFence(fence, lines[0]))
  }

  lemma {:induction false} LinesMaskLength(lines: seq<Text>, fence: Fence)
    requires lines != []
    ensures |LinesMask(lines, fence)| == |Join(lines)|
  {
    if |lines| > 1 { LinesMaskLength(lines[1..], NextFence(fence, lines[0])); }
  }

  function Fenced(text: Text): (mask: seq<bool>)
    ensures |mask| == |text|
  {
    LinesMaskLength(Split(text), Outside);
    JoinSplit(text);
    LinesMask(Split(text), Outside)
  }

  /** The fence in force after these lines. */
  function FenceAfter(lines: seq<Text>): Fence {
    if lines == [] then Outside else NextFence(FenceAfter(lines[..|lines| - 1]), lines[|lines| - 1])
  }

  /** Line o opens a fence that no line between it and k closes. */
  predicate OpenUntil(lines: seq<Text>, o: nat, k: nat)
    requires k <= |lines|
  {
    && o < k
    && FenceAfter(lines[..o]).Outside?
    && Opens(lines[o])
    && forall m :: o < m < k ==> !Closes(lines[m], Opened(lines[o]))
  }

  ghost predicate InOpenFence(lines: seq<Text>, k: nat)
    requires k <= |lines|
  {
    exists o: nat :: OpenUntil(lines, o, k)
  }

  lemma {:induction false} OpenFenceIsInForce(lines: seq<Text>, o: nat, k: nat)
    requires k <= |lines| && OpenUntil(lines, o, k)
    ensures FenceAfter(lines[..k]).Inside? && FenceAfter(lines[..k]) == Opened(lines[o])
    decreases k
  {
    hide Opens, Closes;
    FenceSnoc(lines, k);
    if o < k - 1 { OpenFenceIsInForce(lines, o, k - 1); }
  }

  lemma {:induction false} FenceInForceIsOpen(lines: seq<Text>, k: nat)
    requires k <= |lines|
    ensures FenceAfter(lines[..k]).Inside? ==> InOpenFence(lines, k)
    decreases k
  {
    hide Opens, Closes;
    if k == 0 {
      assert lines[..0] == [];
    } else {
      FenceSnoc(lines, k);
      FenceInForceIsOpen(lines, k - 1);
      if FenceAfter(lines[..k - 1]).Inside? {
        var o: nat :| OpenUntil(lines, o, k - 1);
        OpenFenceIsInForce(lines, o, k - 1);
        if FenceAfter(lines[..k]).Inside? { assert OpenUntil(lines, o, k); }
      } else if Opens(lines[k - 1]) {
        assert OpenUntil(lines, k - 1, k);
      }
    }
  }

  lemma FenceSnoc(lines: seq<Text>, k: nat)
    requires 0 < k <= |lines|
    ensures FenceAfter(lines[..k]) == NextFence(FenceAfter(lines[..k - 1]), lines[k - 1])
  {
    assert lines[..k][..k - 1] == lines[..k - 1];
  }

  /** Where line k begins. */
  function Offset(lines: seq<Text>, k: nat): nat
    requires k <= |lines|
  {
    if k == 0 then 0 else Offset(lines, k - 1) + |lines[k - 1]| + 1
  }

  lemma {:induction false} OffsetOfTail(lines: seq<Text>, k: nat)
    requires 0 < k <= |lines|
    ensures Offset(lines, k) == |lines[0]| + 1 + Offset(lines[1..], k - 1)
  {
    if k > 1 { OffsetOfTail(lines, k - 1); }
  }

  function FenceFrom(fence: Fence, lines: seq<Text>): Fence {
    if lines == [] then fence else NextFence(FenceFrom(fence, lines[..|lines| - 1]), lines[|lines| - 1])
  }

  lemma {:induction false} FenceFromTail(fence: Fence, lines: seq<Text>)
    requires lines != []
    ensures FenceFrom(fence, lines) == FenceFrom(NextFence(fence, lines[0]), lines[1..])
    decreases |lines|
  {
    var n := |lines|;
    if n == 1 {
      assert lines[..0] == [] && lines[1..] == [];
    } else {
      FenceFromTail(fence, lines[..n - 1]);
      assert lines[..n - 1][1..] == lines[1..][..n - 2];
    }
  }

  lemma {:induction false} FenceFromOutside(lines: seq<Text>)
    ensures FenceFrom(Outside, lines) == FenceAfter(lines)
  {
    if lines != [] { FenceFromOutside(lines[..|lines| - 1]); }
  }

  lemma {:induction false} LineIsUniform(lines: seq<Text>, fence: Fence, k: nat, x: nat)
    requires k < |lines| && x < |lines[k]|
    ensures var p := Offset(lines, k) + x;
            p < |LinesMask(lines, fence)| && LinesMask(lines, fence)[p] == Hides(FenceFrom(fence, lines[..k]), lines[k])
    decreases |lines|
  {
    if k == 0 {
      assert lines[..0] == [];
    } else {
      LineIsUniform(lines[1..], NextFence(fence, lines[0]), k - 1, x);
      OffsetOfTail(lines, k);
      FenceFromTail(fence, lines[..k]);
      assert lines[..k][1..] == lines[1..][..k - 1];
    }
  }

  /** A byte of line k is hidden exactly when the line opens a fence, or stands inside one or closes
      it: some earlier line opened a fence that no line in between closed. */
  lemma FencedExactlyWhen(text: Text, k: nat, x: nat)
    requires k < |Split(text)| && x < |Split(text)[k]|
    ensures var lines, p := Split(text), Offset(Split(text), k) + x;
            p < |text| && (Fenced(text)[p] <==> Opens(lines[k]) || InOpenFence(lines, k))
  {
    hide Opens, OpenUntil, LinesMask, FenceAfter, FenceFrom, Offset, Split;
    var lines := Split(text);
    var p := Offset(lines, k) + x;
    assert Fenced(text) == LinesMask(lines, Outside);
    LineIsUniform(lines, Outside, k, x);
    FenceFromOutside(lines[..k]);
    assert Fenced(text)[p] <==> FenceAfter(lines[..k]).Inside? || Opens(lines[k]);
    FenceInForceIsOpen(lines, k);
    if InOpenFence(lines, k) {
      var o: nat :| OpenUntil(lines, o, k);
      OpenFenceIsInForce(lines, o, k);
      assert FenceAfter(lines[..k]).Inside?;
    }
    assert FenceAfter(lines[..k]).Inside? <==> InOpenFence(lines, k);
  }

  lemma FirstLineHasNone(lines: seq<Text>, p: nat)
    requires lines != [] && AreLines(lines)
    ensures p < |lines[0]| ==> p < |Join(lines)| && Join(lines)[p] != '\n'
  {
    if p < |lines[0]| {
      assert lines[0][p] in lines[0];
      assert Join(lines)[p] == lines[0][p];
    }
  }

  lemma {:induction false} NewlinesAreNotMasked(lines: seq<Text>, fence: Fence, p: nat)
    requires lines != [] && AreLines(lines) && p < |Join(lines)| && Join(lines)[p] == '\n'
    ensures p < |LinesMask(lines, fence)| && !LinesMask(lines, fence)[p]
    decreases |lines|
  {
    LinesMaskLength(lines, fence);
    var cut := |lines[0]|;
    FirstLineHasNone(lines, p);
    if |lines| > 1 && p > cut {
      assert Join(lines)[p] == Join(lines[1..])[p - cut - 1];
      NewlinesAreNotMasked(lines[1..], NextFence(fence, lines[0]), p - cut - 1);
    }
  }

  /** The newlines themselves are never hidden by a fence. */
  lemma NewlinesAreNotFenced(text: Text, p: nat)
    requires p < |text| && text[p] == '\n'
    ensures !Fenced(text)[p]
  {
    JoinSplit(text);
    NewlinesAreNotMasked(Split(text), Outside, p);
  }

  /** A fence never hides one of two neighbouring bytes of a line without the other. */
  predicate UniformInLines(text: Text, mask: seq<bool>)
    requires |mask| == |text|
  {
    forall p :: 0 < p < |text| && text[p - 1] != '\n' && text[p] != '\n' ==> mask[p - 1] == mask[p]
  }

  lemma {:induction false} LinesMaskIsUniform(lines: seq<Text>, fence: Fence)
    requires lines != [] && AreLines(lines)
    ensures |LinesMask(lines, fence)| == |Join(lines)|
    ensures UniformInLines(Join(lines), LinesMask(lines, fence))
  {
    LinesMaskLength(lines, fence);
    if |lines| > 1 {
      LinesMaskIsUniform(lines[1..], NextFence(fence, lines[0]));
      UniformWithLineInFront(lines[0], Hides(fence, lines[0]), Join(lines[1..]),
                             LinesMask(lines[1..], NextFence(fence, lines[0])));
      assert Join(lines) == lines[0] + "\n" + Join(lines[1..]);
    }
  }

  lemma UniformWithLineInFront(line: Text, hidden: bool, more: Text, rest: seq<bool>)
    requires IsLine(line) && |rest| == |more| && UniformInLines(more, rest)
    ensures UniformInLines(line + "\n" + more, Fill(|line|, hidden) + ([false] + rest))
  {
    var text, mask := line + "\n" + more, Fill(|line|, hidden) + ([false] + rest);
    var cut := |line| + 1;
    forall p | 0 < p < |text| && text[p - 1] != '\n' && text[p] != '\n' ensures mask[p - 1] == mask[p] {
      if p > cut { assert more[p - cut - 1] == text[p - 1] && rest[p - cut - 1] == mask[p - 1]; }
    }
  }

  lemma FencedIsUniform(text: Text)
    ensures UniformInLines(text, Fenced(text))
  {
    LinesMaskIsUniform(Split(text), Outside);
    JoinSplit(text);
  }

  /** The loops that set a stretch of the mask. */
  method MaskRange(masked: array<bool>, lo: nat, hi: nat)
    requires lo <= hi <= masked.Length
    modifies masked
    ensures masked[..] == old(masked[..lo]) + Fill(hi - lo, true) + old(masked[hi..])
  {
    for p := lo to hi
      invariant forall k :: 0 <= k < masked.Length ==> masked[k] == if lo <= k < p then true else old(masked[k])
    {
      masked[p] := true;
    }
  }

  function LineEnd(text: Text, i: nat): (nl: nat)
    requires i <= |text|
    ensures i <= nl <= |text| && '\n' !in text[i..nl] && (nl < |text| ==> text[nl] == '\n')
    decreases |text| - i
  {
    if i == |text| || text[i] == '\n' then i else LineEnd(text, i + 1)
  }

  lemma SplitAt(text: Text, i: nat)
    requires i <= |text|
    ensures var nl := LineEnd(text, i);
            Split(text[i..]) == if nl == |text| then [text[i..nl]] else [text[i..nl]] + Split(text[nl + 1..])
  {
    var nl := LineEnd(text, i);
    if nl == |text| {
      assert text[i..] == text[i..nl];
      SplitLine(text[i..nl]);
    } else {
      assert text[i..] == text[i..nl] + "\n" + text[nl + 1..];
      SplitFirst(text[i..nl], text[nl + 1..]);
    }
  }

  /** One line's share of the mask, and what is left to do. */
  lemma LinesMaskStep(text: Text, i: nat, fence: Fence)
    requires i <= |text|
    ensures var nl := LineEnd(text, i);
            var line := text[i..nl];
            LinesMask(Split(text[i..]), fence)
            == Fill(nl - i, Hides(fence, line))
               + if nl == |text| then [] else [false] + LinesMask(Split(text[nl + 1..]), NextFence(fence, line))
  {
    SplitAt(text, i);
  }

  /** done, then one line's share, then the rest: the line moves over to done. */
  lemma MoveLine(done: seq<bool>, share: seq<bool>, rest: seq<bool>, whole: seq<bool>)
    requires done + (share + rest) == whole
    ensures (done + share) + rest == whole
  {
    assert (done + share) + rest == done + (share + rest);
  }

  /** Counts the leading spaces and the run of backticks or tildes after them. */
  method ReadFenceMarker(line: Text) returns (indent: nat, marker: nat)
    ensures Marker(indent, marker) == FenceMarker(line)
  {
    indent, marker := 0, 0;
    while indent < |line| && line[indent] == ' ' && indent < 3
      invariant indent <= |line| && indent <= 3 && RunEnd(line, 0, ' ') == RunEnd(line, indent, ' ')
    {
      indent := indent + 1;
    }
    if indent >= |line| || (line[indent] != '`' && line[indent] != '~') { return; }
    var c := line[indent];
    while indent + marker < |line| && line[indent + marker] == c
      invariant indent + marker <= |line| && RunEnd(line, indent, c) == RunEnd(line, indent + marker, c)
    {
      marker := marker + 1;
    }
  }

  /** What a line does to the fence in force, and whether it is hidden. */
  method ReadLine(line: Text, fence: Fence) returns (next: Fence, hidden: bool)
    requires fence.Inside? ==> fence.length >= 3
    ensures next == NextFence(fence, line) && hidden == Hides(fence, line)
    ensures next.Inside? ==> next.length >= 3
  {
    hide FenceMarker, TrimSpace;
    var indent, marker := ReadFenceMarker(line);
    next, hidden := fence, false;
    if fence.Inside? {
      hidden := true;
      if marker >= fence.length && line[indent] == fence.c && TrimSpace(line[indent + marker..]) == "" {
        next := Outside;
      }
    } else if marker >= 3 {
      if !(line[indent] == '`' && '`' in line[indent + marker..]) {
        next, hidden := Inside(line[indent], marker), true;
      }
    }
  }

  /** Phase 1: line by line, with the fence in force. */
  method MaskFences(text: Text, masked: array<bool>)
    requires masked.Length == |text| && forall p :: 0 <= p < |text| ==> !masked[p]
    modifies masked
    ensures masked[..] == Fenced(text)
  {
    hide Closes, Opens, LinesMask, Split, Fenced;
    var n := |text|;
    var fence := Outside;
    var lineStart := 0;
    ghost var done: seq<bool> := [];
    FencedFromTheStart(text);
    while lineStart <= n
      invariant 0 <= lineStart <= n
      invariant done == masked[..lineStart] && (fence.Inside? ==> fence.length >= 3)
      invariant done + LinesMask(Split(text[lineStart..]), fence) == Fenced(text)
      invariant forall p :: lineStart <= p < n ==> !masked[p]
    {
      var nl := LineEnd(text, lineStart);
      var line := text[lineStart..nl];
      LinesMaskStep(text, lineStart, fence);
      ghost var next, share := NextFence(fence, line), Fill(nl - lineStart, Hides(fence, line));
      var hidden;
      fence, hidden := ReadLine(line, fence);
      if hidden { MaskRange(masked, lineStart, nl); }
      assert fence == next;
      assert masked[..nl] == done + share;
      if nl == n {
        assert masked[..] == masked[..nl];
        assert done + (share + []) == done + share;
        break;
      }
      MoveLine(done, share, [false] + LinesMask(Split(text[nl + 1..]), next), Fenced(text));
      MoveLine(done + share, [false], LinesMask(Split(text[nl + 1..]), next), Fenced(text));
      done := done + share + [false];
      lineStart := nl + 1;
    }
  }

  lemma FencedFromTheStart(text: Text)
    ensures [] + LinesMask(Split(text[0..]), Outside) == Fenced(text)
  {
    assert text[0..] == text;
  }
}
