/** The advisor's bounded view of a run (internal/runtime/advisor.go): the blocks of the transcript
    when they fit, otherwise as many from the front as a third of the budget holds, a marker, and
    as many from the back as the rest holds. */
module AdvisorWindow {
  import opened Utf8

  const SEPARATOR: Text := "\n\n"
  const NOTHING: Text := "(no transcript captured)"
  const NOTE: Text := "[\U{E2}\U{80}\U{A6} truncated]"
  const TRUNCATED: Text := SEPARATOR + NOTE
  const MARKER_HEAD: Text := "[\U{E2}\U{80}\U{A6} "
  const MARKER_TAIL: Text :=
    " steps elided \U{E2}\U{80}\U{94} this is a window on the run, not the whole of it \U{E2}\U{80}\U{A6}]"

  // ---------- joining, and the price the budget is charged ----------

  /** strings.Join with a blank line in between. */
  function Join(blocks: seq<Text>): Text {
    if blocks == [] then ""
    else if |blocks| == 1 then blocks[0]
    else blocks[0] + SEPARATOR + Join(blocks[1..])
  }

  function Cost(blocks: seq<Text>): nat { if blocks == [] then 0 else |blocks[0]| + 2 + Cost(blocks[1..]) }

  /** Every block is charged for a separator, so the price is two bytes over the joined length. */
  lemma {:induction false} CostIsJoinedLength(blocks: seq<Text>)
    ensures blocks != [] ==> Cost(blocks) == |Join(blocks)| + 2
  {
    if |blocks| > 1 { CostIsJoinedLength(blocks[1..]); }
  }

  lemma {:induction false} CostSplits(a: seq<Text>, b: seq<Text>)
    ensures Cost(a + b) == Cost(a) + Cost(b)
  {
    if a == [] {
      assert a + b == b;
    } else {
      assert (a + b)[1..] == a[1..] + b;
      CostSplits(a[1..], b);
    }
  }

  lemma CostOfSlices(blocks: seq<Text>, lo: nat, mid: nat, hi: nat)
    requires lo <= mid <= hi <= |blocks|
    ensures Cost(blocks[lo..hi]) == Cost(blocks[lo..mid]) + Cost(blocks[mid..hi])
  {
    assert blocks[lo..hi] == blocks[lo..mid] + blocks[mid..hi];
    CostSplits(blocks[lo..mid], blocks[mid..hi]);
  }

  lemma {:induction false} JoinSplits(a: seq<Text>, b: seq<Text>)
    requires a != [] && b != []
    ensures Join(a + b) == Join(a) + SEPARATOR + Join(b)
  {
    if |a| == 1 {
      assert (a + b)[1..] == b;
    } else {
      assert (a + b)[1..] == a[1..] + b;
      JoinSplits(a[1..], b);
      assert a[0] + SEPARATOR + (Join(a[1..]) + SEPARATOR + Join(b)) == Join(a) + SEPARATOR + Join(b);
    }
  }

  // ---------- the window ----------

  /** Shown in full, these blocks take at most budget bytes. */
  predicate Fits(blocks: seq<Text>, budget: nat) { |Join(blocks)| <= budget }

  /** head is the longest prefix that fits into budget. */
  predicate IsHead(blocks: seq<Text>, budget: nat, head: nat) {
    && head <= |blocks|
    && Fits(blocks[..head], budget)
    && (head < |blocks| ==> !Fits(blocks[..head + 1], budget))
  }

  /** tail is the start of the longest suffix past head that fits into budget. */
  predicate IsTailStart(blocks: seq<Text>, budget: nat, head: nat, tail: nat) {
    && head <= tail <= |blocks|
    && Fits(blocks[tail..], budget)
    && (head < tail ==> !Fits(blocks[tail - 1..], budget))
  }

  lemma {:induction false} PrefixesGrow(blocks: seq<Text>, lo: nat, hi: nat)
    requires lo <= hi <= |blocks|
    ensures |Join(blocks[..lo])| <= |Join(blocks[..hi])|
    ensures |Join(blocks[hi..])| <= |Join(blocks[lo..])|
  {
    CostOfSlices(blocks, 0, lo, hi);
    CostOfSlices(blocks, lo, hi, |blocks|);
    assert blocks[hi..|blocks|] == blocks[hi..] && blocks[lo..|blocks|] == blocks[lo..];
    CostIsJoinedLength(blocks[..lo]);
    CostIsJoinedLength(blocks[..hi]);
    CostIsJoinedLength(blocks[lo..]);
    CostIsJoinedLength(blocks[hi..]);
  }

  /** No longer prefix and no longer suffix past head would have fitted either. */
  lemma WindowIsTheLargest(blocks: seq<Text>, headBudget: nat, tailBudget: nat, head: nat, tail: nat)
    requires IsHead(blocks, headBudget, head) && IsTailStart(blocks, tailBudget, head, tail)
    ensures forall h :: head < h <= |blocks| ==> !Fits(blocks[..h], headBudget)
    ensures forall t :: head <= t < tail ==> !Fits(blocks[t..], tailBudget)
  {
    hide Join;
    forall h | head < h <= |blocks| ensures !Fits(blocks[..h], headBudget) {
      PrefixesGrow(blocks, head + 1, h);
    }
    forall t | head <= t < tail ensures !Fits(blocks[t..], tailBudget) {
      PrefixesGrow(blocks, t, tail - 1);
    }
  }

  /** So the blocks and the budget determine the window. */
  lemma WindowIsUnique(blocks: seq<Text>, headBudget: nat, tailBudget: nat, h: nat, t: nat, head: nat, tail: nat)
    requires IsHead(blocks, headBudget, head) && IsTailStart(blocks, tailBudget, head, tail)
    requires IsHead(blocks, headBudget, h) && IsTailStart(blocks, tailBudget, h, t)
    ensures h == head && t == tail
  {
    hide Join, Fits;
    WindowIsTheLargest(blocks, headBudget, tailBudget, head, tail);
    WindowIsTheLargest(blocks, headBudget, tailBudget, h, t);
  }

  // ---------- the marker ----------

  function Decimal(n: nat): (s: Text)
    ensures s != "" && forall k :: 0 <= k < |s| ==> '0' <= s[k] <= '9'
  {
    var digit: Text := [('0' as int + n % 10) as char];
    if n < 10 then digit else Decimal(n / 10) + digit
  }

  function ReadDecimal(s: Text): int { if s == "" then 0 else 10 * ReadDecimal(s[..|s| - 1]) + (s[|s| - 1] as int - '0' as int) }

  function Marker(omitted: nat): Text { MARKER_HEAD + Decimal(omitted) + MARKER_TAIL }

  lemma {:induction false} DecimalIsRead(n: nat)
    ensures ReadDecimal(Decimal(n)) == n
  {
    if n >= 10 { DecimalIsRead(n / 10); }
    assert Decimal(n)[..|Decimal(n)| - 1] == if n < 10 then "" else Decimal(n / 10);
  }

  /** The marker names the number: no two omissions share one. */
  lemma MarkerNamesTheNumber(m: nat, n: nat)
    requires Marker(m) == Marker(n)
    ensures m == n
  {
    var a, b := Decimal(m), Decimal(n);
    assert |a| == |b|;
    assert a == Marker(m)[|MARKER_HEAD|..|MARKER_HEAD| + |a|];
    assert b == Marker(n)[|MARKER_HEAD|..|MARKER_HEAD| + |b|];
    DecimalIsRead(m);
    DecimalIsRead(n);
  }

  /** It is the notice of the source around the number in decimal, without leading zeros. */
  lemma MarkerSaysHowMany(n: nat)
    ensures exists digits: Text ::
              && Marker(n) == "[\U{E2}\U{80}\U{A6} " + digits
                 + " steps elided \U{E2}\U{80}\U{94} this is a window on the run, not the whole of it \U{E2}\U{80}\U{A6}]"
              && digits != "" && (forall k :: 0 <= k < |digits| ==> '0' <= digits[k] <= '9')
              && (n > 0 ==> digits[0] != '0') && ReadDecimal(digits) == n
  {
    DecimalIsRead(n);
    DecimalIsShort(n);
    assert Marker(n) == MARKER_HEAD + Decimal(n) + MARKER_TAIL;
  }

  lemma {:induction false} DecimalIsShort(n: nat)
    ensures n > 0 ==> Decimal(n)[0] != '0'
  {
    if n >= 10 { DecimalIsShort(n / 10); }
  }

  // ---------- clip ----------

  /** Where a text that is too long is cut: at or before at, in front of a byte that is no tail byte. */
  function CutAt(s: Text, at: nat): (cut: nat)
    requires at < |s|
    ensures cut <= at && (cut > 0 ==> !IsTail(s[cut])) && forall c :: cut < c <= at ==> IsTail(s[c])
  {
    if at > 0 && IsTail(s[at]) then CutAt(s, at - 1) else at
  }

  function ClipLength(s: Text, max: nat): (n: nat)
    ensures n <= |s| && n <= max && (|s| <= max ==> n == |s|)
  {
    if |s| <= max then |s| else CutAt(s, max)
  }

  /** A clipped text that was well-formed stays so, and no longer prefix within max does. */
  lemma ClipIsTheLongest(s: Text, max: nat)
    requires WellFormed(s)
    ensures var n := ClipLength(s, max);
            WellFormed(s[..n]) && forall c :: n < c <= max && c <= |s| ==> !WellFormed(s[..c])
  {
    var n := ClipLength(s, max);
    PrefixIsWellFormedExactlyWhen(s, n);
    forall c | n < c <= max && c <= |s| ensures !WellFormed(s[..c]) { PrefixIsWellFormedExactlyWhen(s, c); }
  }

  /** Truncates without cutting a rune in two. */
  method Clip(s: Text, max: nat) returns (r: Text)
    ensures r == s[..ClipLength(s, max)]
    ensures |s| <= max ==> r == s
    ensures |s| > max ==>
              && |r| <= max && r == s[..|r|] && (|r| > 0 ==> !('\U{80}' <= s[|r|] <= '\U{BF}'))
              && forall c :: |r| < c <= max ==> '\U{80}' <= s[c] <= '\U{BF}'
    ensures WellFormed(s) ==> WellFormed(r) && forall c :: |r| < c <= max && c <= |s| ==> !WellFormed(s[..c])
  {
    if WellFormed(s) { ClipIsTheLongest(s, max); }
    assert s[..|s|] == s;
    if |s| <= max { return s; }
    var cut := max;
    while cut > 0 && IsTail(s[cut])
      invariant 0 <= cut <= max && CutAt(s, max) == CutAt(s, cut)
    {
      cut := cut - 1;
    }
    return s[..cut];
  }

  // ---------- rendering ----------

  function NonEmpty(rendered: seq<Text>): (blocks: seq<Text>)
    ensures forall k :: 0 <= k < |blocks| ==> blocks[k] != ""
  {
    if rendered == [] then []
    else (if rendered[0] == "" then [] else [rendered[0]]) + NonEmpty(rendered[1..])
  }

  lemma {:induction false} NonEmptyGrows(rendered: seq<Text>, s: Text)
    ensures NonEmpty(rendered + [s]) == NonEmpty(rendered) + (if s == "" then [] else [s])
  {
    if rendered == [] {
      assert rendered + [s] == [s];
    } else {
      assert (rendered + [s])[1..] == rendered[1..] + [s];
      NonEmptyGrows(rendered[1..], s);
    }
  }

  /** The nonempty ones, in their order. */
  lemma {:induction false} NothingIsLeft(rendered: seq<Text>)
    ensures NonEmpty(rendered) == [] <==> forall k :: 0 <= k < |rendered| ==> rendered[k] == ""
  {
    if rendered != [] {
      NothingIsLeft(rendered[1..]);
      if NonEmpty(rendered) == [] {
        forall k | 0 <= k < |rendered| ensures rendered[k] == "" {
          assert k > 0 ==> rendered[k] == rendered[1..][k - 1];
        }
      }
    }
  }

  /** The blocks a window shows, with the marker standing for the ones it leaves out. */
  function Shown(blocks: seq<Text>, head: nat, tail: nat): seq<Text>
    requires head <= tail <= |blocks|
  {
    blocks[..head] + (if head < tail then [Marker(tail - head)] else []) + blocks[tail..]
  }

  /** block, clipped to the budget, and the note that it was. */
  function Clipped(block: Text, budget: nat): Text { block[..ClipLength(block, budget)] + TRUNCATED }

  /** out shows this window; when neither end fits, the clipped first block. */
  ghost predicate ShowsWindow(blocks: seq<Text>, budget: nat, out: Text, head: nat, tail: nat) {
    && IsHead(blocks, budget / 3, head)
    && IsTailStart(blocks, budget - budget / 3, head, tail)
    && if head == 0 && tail == |blocks| then blocks != [] && out == Clipped(blocks[0], budget)
       else out == Join(Shown(blocks, head, tail))
  }

  /** out is all of blocks when they fit, and the largest window on them otherwise. */
  ghost predicate Renders(blocks: seq<Text>, budget: nat, out: Text) {
    if blocks == [] then out == NOTHING
    else if Cost(blocks) <= budget then out == Join(blocks)
    else exists head: nat, tail: nat :: ShowsWindow(blocks, budget, out, head, tail)
  }

  method BlocksOf(rendered: seq<Text>) returns (blocks: seq<Text>, total: nat)
    ensures blocks == NonEmpty(rendered) && total == Cost(blocks)
  {
    blocks := [];
    for k := 0 to |rendered|
      invariant blocks == NonEmpty(rendered[..k])
    {
      assert rendered[..k + 1] == rendered[..k] + [rendered[k]];
      NonEmptyGrows(rendered[..k], rendered[k]);
      if rendered[k] != "" { blocks := blocks + [rendered[k]]; }
    }
    assert rendered[..|rendered|] == rendered;
    total := 0;
    for k := 0 to |blocks|
      invariant total == Cost(blocks[..k])
    {
      OneMoreInFront(blocks, k);
      total := total + |blocks[k]| + 2;
    }
    assert blocks[..|blocks|] == blocks;
  }

  /** The loop that fills the front of the window. */
  method FillHead(blocks: seq<Text>, headBudget: nat) returns (head: nat)
    ensures IsHead(blocks, headBudget, head)
  {
    var used := 0;
    head := 0;
    while head < |blocks| && used + |blocks[head]| <= headBudget
      invariant head <= |blocks|
      invariant used == Cost(blocks[..head]) && Fits(blocks[..head], headBudget)
    {
      OneMoreInFront(blocks, head);
      used := used + |blocks[head]| + 2;
      head := head + 1;
    }
    if head < |blocks| { OneMoreInFront(blocks, head); }
  }

  /** The loop that fills the back. */
  method FillTail(blocks: seq<Text>, tailBudget: nat, head: nat) returns (tail: nat)
    requires head <= |blocks|
    ensures IsTailStart(blocks, tailBudget, head, tail)
  {
    var used := 0;
    tail := |blocks|;
    while tail > head && used + |blocks[tail - 1]| <= tailBudget
      invariant head <= tail <= |blocks|
      invariant used == Cost(blocks[tail..]) && Fits(blocks[tail..], tailBudget)
    {
      OneMoreBehind(blocks, tail);
      used := used + |blocks[tail - 1]| + 2;
      tail := tail - 1;
    }
    if head < tail { OneMoreBehind(blocks, tail); }
  }

  method RenderAdvisorTranscript(rendered: seq<Text>, budget: nat) returns (out: Text)
    ensures Renders(NonEmpty(rendered), budget, out)
    ensures (forall k :: 0 <= k < |rendered| ==> rendered[k] == "") ==> out == "(no transcript captured)"
  {
    hide Marker, Cost, IsHead, IsTailStart;
    var blocks, total := BlocksOf(rendered);
    NothingIsLeft(rendered);
    if blocks == [] { return NOTHING; }
    if total <= budget { return Join(blocks); }
    var head := FillHead(blocks, budget / 3);
    var tail := FillTail(blocks, budget - budget / 3, head);
    if head == 0 && tail == |blocks| {
      var clipped := Clip(blocks[0], budget);
      out := clipped + TRUNCATED;
      assert ShowsWindow(blocks, budget, out, head, tail);
      return;
    }
    var shown := blocks[..head];
    if tail > head { shown := shown + [Marker(tail - head)]; }
    shown := shown + blocks[tail..];
    assert shown == Shown(blocks, head, tail);
    out := Join(shown);
    assert ShowsWindow(blocks, budget, out, head, tail);
  }

  lemma OneMoreInFront(blocks: seq<Text>, head: nat)
    requires head < |blocks|
    ensures Cost(blocks[..head + 1]) == Cost(blocks[..head]) + |blocks[head]| + 2
    ensures |Join(blocks[..head + 1])| == Cost(blocks[..head]) + |blocks[head]|
  {
    CostOfSlices(blocks, 0, head, head + 1);
    CostIsJoinedLength(blocks[..head + 1]);
  }

  lemma OneMoreBehind(blocks: seq<Text>, tail: nat)
    requires 0 < tail <= |blocks|
    ensures Cost(blocks[tail - 1..]) == Cost(blocks[tail..]) + |blocks[tail - 1]| + 2
    ensures |Join(blocks[tail - 1..])| == Cost(blocks[tail..]) + |blocks[tail - 1]|
  {
    assert blocks[tail - 1..][1..] == blocks[tail..];
    CostIsJoinedLength(blocks[tail - 1..]);
  }

  // ---------- what a reader of the window gets ----------

  /** Head, omitted and tail are the blocks, each once, and the shown ones stand verbatim at the two
      ends of the output, joined to what is between them by a blank line. */
  lemma WindowIsAPartition(blocks: seq<Text>, head: nat, tail: nat)
    requires head <= tail <= |blocks| && (0 < head || tail < |blocks|)
    ensures blocks == blocks[..head] + blocks[head..tail] + blocks[tail..]
    ensures var out := Join(Shown(blocks, head, tail));
            out == (if head == 0 then "" else Join(blocks[..head]) + (if tail == head == |blocks| then "" else SEPARATOR))
                 + (if head == tail then "" else Marker(tail - head) + (if tail == |blocks| then "" else SEPARATOR))
                 + Join(blocks[tail..])
  {
    hide Marker;
    var a, b := blocks[..head], blocks[tail..];
    if head == tail {
      assert Shown(blocks, head, tail) == a + b;
      if a == [] {
        assert a + b == b;
      } else if b == [] {
        assert a + b == a;
      } else {
        JoinSplits(a, b);
      }
    } else {
      var m := [Marker(tail - head)];
      if b == [] {
        assert m + b == m;
      } else {
        JoinSplits(m, b);
      }
      assert Shown(blocks, head, tail) == a + (m + b);
      if a == [] {
        assert a + (m + b) == m + b;
      } else {
        JoinSplits(a, m + b);
      }
    }
  }

  /** What stands in a rendered transcript: a block, the first so many bytes of one, the marker for
      the ones left out, or the note that a block was clipped. */
  datatype Piece = Whole(index: nat) | Cut(index: nat, length: nat) | Elided(count: nat) | Note

  predicate IsPiece(blocks: seq<Text>, p: Piece) {
    match p
    case Whole(i) => i < |blocks|
    case Cut(i, n) => i < |blocks| && n <= |blocks[i]|
    case _ => true
  }

  predicate ArePieces(blocks: seq<Text>, view: seq<Piece>) { forall k :: 0 <= k < |view| ==> IsPiece(blocks, view[k]) }

  function Texts(blocks: seq<Text>, view: seq<Piece>): seq<Text>
    requires ArePieces(blocks, view)
  {
    seq(|view|, k requires 0 <= k < |view| =>
      match view[k]
      case Whole(i) => blocks[i]
      case Cut(i, n) => blocks[i][..n]
      case Elided(n) => Marker(n)
      case Note => NOTE)
  }

  function AllOf(lo: nat, hi: nat): (view: seq<Piece>)
    requires lo <= hi
    ensures forall p :: p in view <==> p.Whole? && lo <= p.index < hi
  {
    var view := seq(hi - lo, k requires 0 <= k => Whole(lo + k));
    assert forall i :: lo <= i < hi ==> view[i - lo] == Whole(i);
    view
  }

  /** The two ends and the marker for what is between them. */
  function SplitView(head: nat, tail: nat, n: nat): (view: seq<Piece>)
    requires head <= tail <= n
  {
    AllOf(0, head) + ElidedBetween(head, tail) + AllOf(tail, n)
  }

  function ElidedBetween(head: nat, tail: nat): seq<Piece>
    requires head <= tail
  {
    if head < tail then [Elided(tail - head)] else []
  }

  /** The pieces of a transcript that does not fit, by its window. */
  function WindowView(blocks: seq<Text>, budget: nat, head: nat, tail: nat): (view: seq<Piece>)
    requires blocks != [] && head <= tail <= |blocks|
  {
    if head == 0 && tail == |blocks| then [Cut(0, ClipLength(blocks[0], budget)), Note]
    else SplitView(head, tail, |blocks|)
  }

  /** What is in a split view. */
  lemma InSplitView(head: nat, tail: nat, n: nat)
    requires head <= tail <= n
    ensures forall i: nat :: Whole(i) in SplitView(head, tail, n) <==> i < head || tail <= i < n
    ensures forall i: nat, m: nat :: Cut(i, m) !in SplitView(head, tail, n)
    ensures forall m: nat :: Elided(m) in SplitView(head, tail, n) <==> m == tail - head > 0
    ensures Note !in SplitView(head, tail, n)
  {
    hide AllOf;
    assert forall p :: p in SplitView(head, tail, n) <==>
      p in AllOf(0, head) || p in ElidedBetween(head, tail) || p in AllOf(tail, n);
  }

  lemma OneSidedViews(head: nat, tail: nat, n: nat)
    requires head <= tail <= n
    ensures head == 0 < tail ==> SplitView(head, tail, n) == [Elided(tail)] + AllOf(tail, n)
    ensures head < tail == n ==> SplitView(head, tail, n) == AllOf(0, head) + [Elided(n - head)]
  {
    assert AllOf(0, 0) == [] && AllOf(n, n) == [];
  }

  /** view is what a transcript of these blocks shows. */
  ghost predicate Views(blocks: seq<Text>, budget: nat, view: seq<Piece>)
    requires blocks != []
  {
    if Cost(blocks) <= budget then view == AllOf(0, |blocks|)
    else exists head: nat, tail: nat ::
      && IsHead(blocks, budget / 3, head) && IsTailStart(blocks, budget - budget / 3, head, tail)
      && view == WindowView(blocks, budget, head, tail)
  }

  lemma TextsOfSpan(blocks: seq<Text>, lo: nat, hi: nat)
    requires lo <= hi <= |blocks|
    ensures ArePieces(blocks, AllOf(lo, hi)) && Texts(blocks, AllOf(lo, hi)) == blocks[lo..hi]
  {
  }

  lemma TextsOfParts(blocks: seq<Text>, v: seq<Piece>, w: seq<Piece>)
    requires ArePieces(blocks, v) && ArePieces(blocks, w)
    ensures ArePieces(blocks, v + w) && Texts(blocks, v + w) == Texts(blocks, v) + Texts(blocks, w)
  {
  }

  lemma TextsOfWindow(blocks: seq<Text>, budget: nat, head: nat, tail: nat)
    requires blocks != [] && head <= tail <= |blocks|
    ensures var view := WindowView(blocks, budget, head, tail);
            ArePieces(blocks, view)
            && Texts(blocks, view)
               == if head == 0 && tail == |blocks| then [blocks[0][..ClipLength(blocks[0], budget)], NOTE] else Shown(blocks, head, tail)
  {
    hide Marker, ClipLength, SplitView, Shown;
    if head != 0 || tail != |blocks| { TextsOfSplit(blocks, head, tail); }
  }

  lemma TextsOfSplit(blocks: seq<Text>, head: nat, tail: nat)
    requires head <= tail <= |blocks|
    ensures ArePieces(blocks, SplitView(head, tail, |blocks|))
    ensures Texts(blocks, SplitView(head, tail, |blocks|)) == Shown(blocks, head, tail)
  {
    hide Marker, AllOf, ArePieces, Texts, ElidedBetween;
    TextsOfSpan(blocks, 0, head);
    TextsOfSpan(blocks, tail, |blocks|);
    TextsOfMarker(blocks, head, tail);
    TextsOfParts(blocks, AllOf(0, head), ElidedBetween(head, tail));
    TextsOfParts(blocks, AllOf(0, head) + ElidedBetween(head, tail), AllOf(tail, |blocks|));
    assert blocks[0..head] == blocks[..head] && blocks[tail..|blocks|] == blocks[tail..];
  }

  lemma TextsOfMarker(blocks: seq<Text>, head: nat, tail: nat)
    requires head <= tail
    ensures ArePieces(blocks, ElidedBetween(head, tail))
    ensures Texts(blocks, ElidedBetween(head, tail)) == if head < tail then [Marker(tail - head)] else []
  {
    hide Marker;
  }

  /** There is one view, and the rendered text is its pieces with blank lines in between. */
  lemma RenderedIsTheView(blocks: seq<Text>, budget: nat, out: Text) returns (view: seq<Piece>)
    requires blocks != [] && Renders(blocks, budget, out)
    ensures Views(blocks, budget, view) && ArePieces(blocks, view) && out == Join(Texts(blocks, view))
    ensures forall other :: Views(blocks, budget, other) ==> other == view
  {
    hide Marker, Join, Texts, WindowView, Fits, Cost, Shown;
    if Cost(blocks) <= budget {
      view := AllOf(0, |blocks|);
      TextsOfSpan(blocks, 0, |blocks|);
      assert blocks[0..|blocks|] == blocks;
    } else {
      var head: nat, tail: nat :| ShowsWindow(blocks, budget, out, head, tail);
      InWindow(blocks, budget, head, tail);
      view := WindowView(blocks, budget, head, tail);
      TextsOfWindow(blocks, budget, head, tail);
      if head == 0 && tail == |blocks| { JoinTwo(blocks[0][..ClipLength(blocks[0], budget)], NOTE); }
      forall other | Views(blocks, budget, other) ensures other == view {
        var h: nat, t: nat :| IsHead(blocks, budget / 3, h) && IsTailStart(blocks, budget - budget / 3, h, t)
                              && other == WindowView(blocks, budget, h, t);
        WindowIsUnique(blocks, budget / 3, budget - budget / 3, h, t, head, tail);
      }
    }
  }

  lemma InWindow(blocks: seq<Text>, budget: nat, head: nat, tail: nat)
    requires IsTailStart(blocks, budget - budget / 3, head, tail)
    ensures head <= tail <= |blocks|
  {
  }

  lemma JoinOne(a: Text)
    ensures Join([a]) == a
  {
  }

  lemma JoinTwo(a: Text, b: Text)
    ensures Join([a, b]) == a + SEPARATOR + b
  {
    assert [a, b][1..] == [b];
  }

  /** A single block that is too long is cut short, and the reader is told. */
  lemma ALongBlockIsCut(block: Text, budget: nat, out: Text)
    requires Renders([block], budget, out) && |block| > budget
    ensures exists n :: 0 <= n <= budget && out == block[..n] + "\n\n[\U{E2}\U{80}\U{A6} truncated]"
  {
    hide Renders, Join, Cost, Fits, IsHead, IsTailStart;
    var blocks := [block];
    CostIsJoinedLength(blocks);
    JoinOne(block);
    RendersAWindow(blocks, budget, out);
    var head: nat, tail: nat :| ShowsWindow(blocks, budget, out, head, tail);
    HeadReaches(blocks, budget / 3, head);
    TailReaches(blocks, budget - budget / 3, head, tail);
    assert TRUNCATED == "\n\n[\U{E2}\U{80}\U{A6} truncated]";
    assert out == block[..ClipLength(block, budget)] + "\n\n[\U{E2}\U{80}\U{A6} truncated]";
  }

  // ---------- how long it is ----------

  /** The output outgrows the budget by at most the marker it shows and the two separators beside it,
      by one separator when it leaves nothing out, and by the note when it clips. */
  lemma WindowIsBounded(blocks: seq<Text>, budget: nat, out: Text, view: seq<Piece>)
    requires blocks != [] && Renders(blocks, budget, out) && Views(blocks, budget, view)
    ensures forall n :: Elided(n) in view ==> |out| <= budget + 4 + |Marker(n)|
    ensures Note in view ==> |out| <= budget + |TRUNCATED|
    ensures (forall p :: p in view ==> p.Whole?) ==> |out| <= budget + 2
  {
    hide Join, Marker, Shown, SplitView;
    if Cost(blocks) <= budget {
      CostIsJoinedLength(blocks);
    } else {
      var head: nat, tail: nat :| ShowsWindow(blocks, budget, out, head, tail);
      var h: nat, t: nat :| IsHead(blocks, budget / 3, h) && IsTailStart(blocks, budget - budget / 3, h, t)
                            && view == WindowView(blocks, budget, h, t);
      WindowIsUnique(blocks, budget / 3, budget - budget / 3, h, t, head, tail);
      if head == 0 && tail == |blocks| {
        assert view == [Cut(0, ClipLength(blocks[0], budget)), Note];
        assert Note in view && out == Clipped(blocks[0], budget);
      } else {
        WindowLength(blocks, head, tail);
        InSplitView(head, tail, |blocks|);
        assert head < tail ==> Elided(tail - head) in view;
      }
    }
  }

  lemma WindowLength(blocks: seq<Text>, head: nat, tail: nat)
    requires head <= tail <= |blocks| && (0 < head || tail < |blocks|)
    ensures |Join(Shown(blocks, head, tail))|
         <= |Join(blocks[..head])| + |Join(blocks[tail..])| + if head < tail then 4 + |Marker(tail - head)| else 2
  {
    hide Join, Marker, Shown;
    WindowIsAPartition(blocks, head, tail);
  }

  /** The one separator is needed: here nothing is left out, and the output is two over the budget. */
  lemma NothingElidedMayOverrun(out: Text)
    requires Renders(["a", "bb"], 3, out)
    ensures out == "a\n\nbb" && |out| == 3 + 2
  {
    hide Marker, Renders, Join, Cost, Fits, IsHead, IsTailStart;
    var a: Text, b: Text := "a", "bb";
    var blocks := [a, b];
    TwoBlocks(a, b);
    TwoBlockWindow(a, b, 3, 1);
    RendersAWindow(blocks, 3, out);
    var head: nat, tail: nat :| ShowsWindow(blocks, 3, out, head, tail);
    WindowIsUnique(blocks, 1, 2, head, tail, 1, 1);
    WindowIsAPartition(blocks, 1, 1);
  }

  // ---------- what becomes of the task ----------

  /** The first block stands whole, in its place or clipped to its full length. */
  predicate FirstIsWhole(blocks: seq<Text>, view: seq<Piece>)
    requires blocks != []
  {
    Whole(0) in view || Cut(0, |blocks[0]|) in view
  }

  predicate FirstIsCut(blocks: seq<Text>, view: seq<Piece>)
    requires blocks != []
  {
    exists n: nat :: n < |blocks[0]| && Cut(0, n) in view
  }

  /** The first block, which holds the task, is whole exactly when everything fits, or a third of the
      budget holds it, or all blocks together fit into the rest of the budget, or the last block does
      not fit there and the budget holds the first.  It is cut exactly when the budget does not hold
      it and the rest does not hold the last block.  In every other case it is left out. */
  lemma TheTaskIsKeptExactlyWhen(blocks: seq<Text>, budget: nat, view: seq<Piece>)
    requires blocks != [] && Views(blocks, budget, view)
    ensures var first, last, rest := |blocks[0]|, |blocks[|blocks| - 1]|, budget - budget / 3;
            && (FirstIsWhole(blocks, view) <==>
                  || Cost(blocks) <= budget
                  || first <= budget / 3
                  || |Join(blocks)| <= rest
                  || (last > rest && first <= budget))
            && (FirstIsCut(blocks, view) <==> first > budget && last > rest)
            && (FirstIsCut(blocks, view) ==> view == [Cut(0, ClipLength(blocks[0], budget)), Note])
            && (!FirstIsWhole(blocks, view) && !FirstIsCut(blocks, view) ==>
                  exists n: nat :: 0 < n < |blocks| && view == [Elided(n)] + AllOf(n, |blocks|))
  {
    hide Marker, Join, Fits, Cost, ClipLength, SplitView;
    if Cost(blocks) <= budget {
      AllFit(blocks, budget);
    } else {
      var head: nat, tail: nat :|
        IsHead(blocks, budget / 3, head) && IsTailStart(blocks, budget - budget / 3, head, tail)
        && view == WindowView(blocks, budget, head, tail);
      InWindow(blocks, budget, head, tail);
      HeadReaches(blocks, budget / 3, head);
      if head == 0 {
        TailReaches(blocks, budget - budget / 3, head, tail);
        TailIsAll(blocks, budget - budget / 3, tail);
      }
      InSplitView(head, tail, |blocks|);
      OneSidedViews(head, tail, |blocks|);
      if head == 0 && tail == |blocks| { assert view[0] == Cut(0, ClipLength(blocks[0], budget)); }
    }
  }

  lemma AllFit(blocks: seq<Text>, budget: nat)
    requires blocks != [] && Cost(blocks) <= budget
    ensures |blocks[0]| <= budget
  {
  }

  lemma HeadReaches(blocks: seq<Text>, budget: nat, head: nat)
    requires blocks != [] && IsHead(blocks, budget, head)
    ensures head > 0 <==> |blocks[0]| <= budget
  {
    hide Join;
    JoinOne(blocks[0]);
    assert blocks[..1] == [blocks[0]];
    assert head == 0 ==> blocks[..head + 1] == blocks[..1];
    if head > 0 { PrefixesGrow(blocks, 1, head); }
  }

  lemma TailReaches(blocks: seq<Text>, budget: nat, head: nat, tail: nat)
    requires head < |blocks| && IsTailStart(blocks, budget, head, tail)
    ensures tail == |blocks| <==> |blocks[|blocks| - 1]| > budget
  {
    hide Join;
    var last := |blocks| - 1;
    JoinOne(blocks[last]);
    assert blocks[last..] == [blocks[last]];
    assert tail == |blocks| ==> blocks[tail - 1..] == blocks[last..];
    if tail < |blocks| { PrefixesGrow(blocks, tail, last); }
  }

  lemma TailIsAll(blocks: seq<Text>, budget: nat, tail: nat)
    requires IsTailStart(blocks, budget, 0, tail)
    ensures tail == 0 <==> |Join(blocks)| <= budget
  {
    hide Join;
    assert blocks[0..] == blocks;
    if tail > 0 { PrefixesGrow(blocks, 0, tail - 1); }
  }

  /** The last block stands whole; when it is the only one, also clipped to its full length. */
  predicate LastIsWhole(blocks: seq<Text>, view: seq<Piece>)
    requires blocks != []
  {
    Whole(|blocks| - 1) in view || (|blocks| == 1 && Cut(0, |blocks[0]|) in view)
  }

  /** Of several blocks, the last one, which holds the latest step, is whole exactly when everything
      fits or the rest of the budget holds it; otherwise a clipped first block, or the head and the
      marker, are all there is. */
  lemma TheLastStepIsShownExactlyWhen(blocks: seq<Text>, budget: nat, view: seq<Piece>)
    requires |blocks| > 1 && (forall k :: 0 <= k < |blocks| ==> blocks[k] != "") && Views(blocks, budget, view)
    ensures LastIsWhole(blocks, view) <==> Cost(blocks) <= budget || |blocks[|blocks| - 1]| <= budget - budget / 3
    ensures !LastIsWhole(blocks, view) ==>
              || view == [Cut(0, ClipLength(blocks[0], budget)), Note]
              || exists n: nat :: 0 < n < |blocks| && view == AllOf(0, n) + [Elided(|blocks| - n)]
  {
    hide Marker, Join, Fits, Cost, ClipLength, SplitView;
    var last := |blocks| - 1;
    if Cost(blocks) > budget {
      var head: nat, tail: nat :|
        IsHead(blocks, budget / 3, head) && IsTailStart(blocks, budget - budget / 3, head, tail)
        && view == WindowView(blocks, budget, head, tail);
      HeadIsNotAll(blocks, budget, head);
      TailReaches(blocks, budget - budget / 3, head, tail);
      InWindow(blocks, budget, head, tail);
      InSplitView(head, tail, |blocks|);
      OneSidedViews(head, tail, |blocks|);
    }
  }

  /** Blocks that do not fit into the budget do not all fit into a third of it. */
  lemma HeadIsNotAll(blocks: seq<Text>, budget: nat, head: nat)
    requires blocks != [] && (forall k :: 0 <= k < |blocks| ==> blocks[k] != "") && Cost(blocks) > budget
    requires IsHead(blocks, budget / 3, head)
    ensures head < |blocks|
  {
    hide Join;
    CostIsJoinedLength(blocks);
    assert blocks[..|blocks|] == blocks;
    JoinOne(blocks[0]);
    assert blocks[..1] == [blocks[0]];
    PrefixesGrow(blocks, 1, |blocks|);
  }

  /** The promise of the window, that the head and the tail are kept, said of both ends at once: the
      first and the last block are whole exactly when everything fits, or each fits into its share, or
      all fit into the share of the tail; and a single block when it fits into the budget. */
  lemma BothEndsAreShownExactlyWhen(blocks: seq<Text>, budget: nat, view: seq<Piece>)
    requires blocks != [] && (forall k :: 0 <= k < |blocks| ==> blocks[k] != "") && Views(blocks, budget, view)
    ensures var first, last, rest := |blocks[0]|, |blocks[|blocks| - 1]|, budget - budget / 3;
            FirstIsWhole(blocks, view) && LastIsWhole(blocks, view) <==>
              if |blocks| == 1 then first <= budget
              else || Cost(blocks) <= budget
                   || (first <= budget / 3 && last <= rest)
                   || |Join(blocks)| <= rest
  {
    hide Views, AllOf, FirstIsCut;
    TheTaskIsKeptExactlyWhen(blocks, budget, view);
    if |blocks| == 1 {
      assert Join(blocks) == blocks[0];
      CostIsJoinedLength(blocks);
    } else {
      TheLastStepIsShownExactlyWhen(blocks, budget, view);
      LastIsPartOfJoin(blocks);
    }
  }

  lemma LastIsPartOfJoin(blocks: seq<Text>)
    requires blocks != []
    ensures |blocks[|blocks| - 1]| <= |Join(blocks)|
  {
    var last := |blocks| - 1;
    JoinOne(blocks[last]);
    assert blocks[last..] == [blocks[last]] && blocks[0..] == blocks;
    PrefixesGrow(blocks, 0, last);
  }

  /** An instance: the task just fits its third, the last step is one byte over its share, and what is
      left of the transcript is the task and the marker. */
  lemma ALongStepIsLeftOut(out: Text)
    requires Renders(["task", "long step"], 12, out)
    ensures out == "task\n\n" + Marker(1)
  {
    hide Marker, Renders, Join, Cost, Fits, IsHead, IsTailStart;
    var task: Text, step: Text := "task", "long step";
    var blocks := [task, step];
    TwoBlocks(task, step);
    HeadOfTwo(task, step, 12);
    RendersAWindow(blocks, 12, out);
    var head: nat, tail: nat :| ShowsWindow(blocks, 12, out, head, tail);
    WindowIsUnique(blocks, 4, 8, head, tail, 1, 2);
    WindowIsAPartition(blocks, 1, 2);
    assert blocks[2..] == [] && Join([]) == "" by { JoinOfNone(); }
  }

  lemma JoinOfNone()
    ensures Join([]) == ""
  {
  }

  /** Of two blocks the first is the head alone when it fits its share and the second does not. */
  lemma HeadOfTwo(a: Text, b: Text, budget: nat)
    requires |a| <= budget / 3 && |b| > budget - budget / 3
    ensures IsHead([a, b], budget / 3, 1) && IsTailStart([a, b], budget - budget / 3, 1, 2)
  {
    hide Join;
    var blocks := [a, b];
    TwoBlocks(a, b);
    JoinOfNone();
    assert |SEPARATOR| == 2;
    assert blocks[..2] == blocks && blocks[0..] == blocks && blocks[2..] == [];
  }

  /** An instance: the task is one byte over its third, the last step is short, and what is left of
      the transcript is the marker and that step. */
  lemma AShortTailDisplacesTheTask(out: Text)
    requires Renders(["long task", "step"], 12, out)
    ensures out == Marker(1) + "\n\nstep"
  {
    hide Marker, Renders, Join, Cost, Fits, IsHead, IsTailStart;
    var task: Text, step: Text := "long task", "step";
    var blocks := [task, step];
    TwoBlocks(task, step);
    TwoBlockWindow(task, step, 12, 0);
    RendersAWindow(blocks, 12, out);
    var head: nat, tail: nat :| ShowsWindow(blocks, 12, out, head, tail);
    WindowIsUnique(blocks, 4, 8, head, tail, 0, 1);
    WindowIsAPartition(blocks, 0, 1);
  }

  lemma RendersAWindow(blocks: seq<Text>, budget: nat, out: Text)
    requires blocks != [] && Cost(blocks) > budget && Renders(blocks, budget, out)
    ensures exists head: nat, tail: nat :: ShowsWindow(blocks, budget, out, head, tail)
  {
  }

  lemma TwoBlocks(a: Text, b: Text)
    ensures var blocks := [a, b];
            && Cost(blocks) == |a| + |b| + 4
            && Join(blocks[..0]) == "" && Join(blocks[..1]) == a && Join(blocks[1..]) == b
            && Join(blocks[0..]) == a + SEPARATOR + b
  {
    var blocks := [a, b];
    assert blocks[..0] == [] && blocks[..1] == [a] && blocks[1..] == [b] && blocks[0..] == blocks;
    CostIsJoinedLength(blocks);
    assert Join([b]) == b;
  }

  /** Of two blocks that do not fit together, the second is the tail when it fits, and the first is the
      head when it does. */
  lemma TwoBlockWindow(a: Text, b: Text, budget: nat, head: nat)
    requires |b| <= budget - budget / 3 < |a| + 2 + |b|
    requires head == if |a| <= budget / 3 then 1 else 0
    ensures IsHead([a, b], budget / 3, head) && IsTailStart([a, b], budget - budget / 3, head, 1)
  {
    hide Join;
    var blocks := [a, b];
    TwoBlocks(a, b);
    assert |SEPARATOR| == 2;
    assert blocks[..2] == blocks && blocks[0..] == blocks;
  }
}
