/** Which bytes of a chat message are prose (internal/runtime/chatkw.go): not in a fenced code
    block, and not in a code span or an HTML construct outside one. */
module ProseMask {
  import opened Fences
  import Lines
  import opened Utf8
  import opened Wrappers

  // ---------- code spans ----------

  /** [k..e) is a whole run of backticks. */
  predicate IsRun(text: Text, k: nat, e: nat) {
    && k < e <= |text|
    && (forall p :: k <= p < e ==> text[p] == '`')
    && (k > 0 ==> text[k - 1] != '`')
    && (e < |text| ==> text[e] != '`')
  }

  /** No run of backticks begins before k and goes on past it. */
  predicate BetweenRuns(text: Text, k: nat) {
    k <= |text| && !(0 < k < |text| && text[k - 1] == '`' && text[k] == '`')
  }

  /** The end of the next unmasked run of exactly length backticks from k on. */
  function FindBacktickClose(text: Text, mask: seq<bool>, k: nat, length: nat): (r: Option<nat>)
    requires |mask| == |text| && k <= |text|
    ensures r.Some? ==> k < r.value + (if length == 0 then 1 else 0) && k <= r.value <= |text|
    decreases |text| - k
  {
    if k == |text| then None
    else if mask[k] || text[k] != '`' then FindBacktickClose(text, mask, k + 1, length)
    else if RunEnd(text, k, '`') - k == length then Some(RunEnd(text, k, '`'))
    else FindBacktickClose(text, mask, RunEnd(text, k, '`'), length)
  }

  /** An unmasked run of exactly length backticks at or after from. */
  predicate ClosingRun(text: Text, mask: seq<bool>, from: nat, length: nat, k: nat)
    requires |mask| == |text|
  {
    from <= k && IsRun(text, k, k + length) && !mask[k]
  }

  /** r is the end of the first closing run, None when there is none. */
  ghost predicate FirstClose(text: Text, mask: seq<bool>, from: nat, length: nat, r: Option<nat>)
    requires |mask| == |text|
  {
    && (r.Some? ==> from + length <= r.value && ClosingRun(text, mask, from, length, r.value - length))
    && forall k: nat :: ClosingRun(text, mask, from, length, k) ==> r.Some? && r.value <= k + length
  }

  lemma {:induction false} CloseIsTheFirstEqualRun(text: Text, mask: seq<bool>, from: nat, length: nat)
    requires |mask| == |text| && UniformInLines(text, mask) && BetweenRuns(text, from) && length > 0
    ensures FirstClose(text, mask, from, length, FindBacktickClose(text, mask, from, length))
    decreases |text| - from
  {
    if from < |text| {
      var e := RunEnd(text, from, '`');
      if e == from {
        CloseIsTheFirstEqualRun(text, mask, from + 1, length);
        StartLater(text, mask, from, from + 1, length);
      } else if mask[from] {
        // a masked run is masked throughout, so the scan passes it byte by byte
        CloseIsTheFirstEqualRun(text, mask, e, length);
        SkipMaskedRun(text, mask, from, e, length);
        StartLater(text, mask, from, e, length);
      } else if e - from == length {
        assert ClosingRun(text, mask, from, length, from);
      } else {
        CloseIsTheFirstEqualRun(text, mask, e, length);
        StartLater(text, mask, from, e, length);
      }
    }
  }

  /** Bytes that begin no closing run can be passed over. */
  lemma StartLater(text: Text, mask: seq<bool>, from: nat, e: nat, length: nat)
    requires |mask| == |text| && from < e <= |text| && length > 0
    requires mask[from] || text[from] != '`' || length != e - from
    requires if text[from] == '`' then IsRun(text, from, e) else e == from + 1
    ensures forall k: nat :: ClosingRun(text, mask, from, length, k) ==> ClosingRun(text, mask, e, length, k)
    ensures forall k: nat :: ClosingRun(text, mask, e, length, k) ==> ClosingRun(text, mask, from, length, k)
  {
    forall k: nat | ClosingRun(text, mask, from, length, k) ensures ClosingRun(text, mask, e, length, k) {
      if text[from] == '`' && k < e { RunsAgree(text, from, e, k, k + length); }
    }
  }

  lemma RunsAgree(text: Text, k: nat, e: nat, k': nat, e': nat)
    requires IsRun(text, k, e) && IsRun(text, k', e') && k <= k' < e
    ensures k == k' && e == e'
  {
  }

  lemma {:induction false} SkipMaskedRun(text: Text, mask: seq<bool>, from: nat, e: nat, length: nat)
    requires |mask| == |text| && UniformInLines(text, mask)
    requires from < e <= |text| && mask[from] && forall p :: from <= p < e ==> text[p] == '`'
    ensures FindBacktickClose(text, mask, from, length) == FindBacktickClose(text, mask, e, length)
    decreases e - from
  {
    if from + 1 < e {
      SkipMaskedRun(text, mask, from + 1, e, length);
    }
  }

  // ---------- tags ----------

  predicate IsLetter(c: Byte) { 'A' <= c <= 'Z' || 'a' <= c <= 'z' }

  predicate IsNameByte(c: Byte) { IsLetter(c) || '0' <= c <= '9' || c == '-' }

  function NameRunEnd(text: Text, j: nat): (e: nat)
    requires j <= |text|
    ensures j <= e <= |text| && (forall k :: j <= k < e ==> IsNameByte(text[k]))
    ensures e < |text| ==> !IsNameByte(text[e])
    decreases |text| - j
  {
    if j < |text| && IsNameByte(text[j]) then NameRunEnd(text, j + 1) else j
  }

  /** The end of the tag name at i, i itself when none begins there. */
  function TagNameEnd(text: Text, i: nat): (e: nat)
    requires i <= |text|
    ensures i <= e <= |text|
  {
    if i < |text| && IsLetter(text[i]) then NameRunEnd(text, i + 1) else i
  }

  /** The quote a byte opens, keeps open or closes. */
  function QuoteStep(quote: Option<Byte>, c: Byte): Option<Byte> {
    if quote.Some? then (if c == quote.value then None else quote)
    else if c == '"' || c == '\'' then Some(c)
    else None
  }

  /** The quote open after text[j..k]. */
  function QuoteAt(text: Text, j: nat, k: nat): Option<Byte>
    requires j <= k <= |text|
  {
    if k == j then None else QuoteStep(QuoteAt(text, j, k - 1), text[k - 1])
  }

  /** The offset of the '>' that closes the tag; None when an unquoted '<' comes first or nothing. */
  function FindTagEnd(text: Text, k: nat, quote: Option<Byte>): (gt: Option<nat>)
    requires k <= |text|
    ensures gt.Some? ==> k <= gt.value < |text| && text[gt.value] == '>'
    decreases |text| - k
  {
    if k == |text| then None
    else if quote.None? && text[k] == '>' then Some(k)
    else if quote.None? && text[k] == '<' then None
    else FindTagEnd(text, k + 1, QuoteStep(quote, text[k]))
  }

  /** An angle bracket outside the quotes of a tag whose attributes begin at j. */
  predicate Angle(text: Text, j: nat, p: nat) {
    j <= p < |text| && QuoteAt(text, j, p).None? && (text[p] == '<' || text[p] == '>')
  }

  predicate FirstAngle(text: Text, j: nat, k: nat, g: nat) {
    k <= g && Angle(text, j, g) && forall p :: k <= p < g ==> !Angle(text, j, p)
  }

  /** A tag ends at its first unquoted angle bracket, if that is a '>'. */
  lemma {:induction false} TagEndIsTheFirstAngle(text: Text, j: nat, k: nat, g: nat)
    requires j <= k <= |text|
    ensures FindTagEnd(text, k, QuoteAt(text, j, k)) == Some(g) <==> FirstAngle(text, j, k, g) && text[g] == '>'
    decreases |text| - k
  {
    if k < |text| {
      assert QuoteAt(text, j, k + 1) == QuoteStep(QuoteAt(text, j, k), text[k]);
      TagEndIsTheFirstAngle(text, j, k + 1, g);
      if Angle(text, j, k) {
        assert FirstAngle(text, j, k, g) ==> g == k;
      } else {
        assert FirstAngle(text, j, k, g) <==> FirstAngle(text, j, k + 1, g);
      }
    }
  }

  datatype Tag = Tag(closing: bool, name: Text, selfClosing: bool, end: nat)

  /** The tag that begins with the '<' at i, if one does. */
  function TagAt(text: Text, i: nat): (tag: Option<Tag>)
    requires i < |text|
    ensures tag.Some? ==> i + 1 < tag.value.end <= |text| && text[tag.value.end - 1] == '>'
  {
    var closing := i + 1 < |text| && text[i + 1] == '/';
    var j := if closing then i + 2 else i + 1;
    var nameEnd := TagNameEnd(text, j);
    var gt := FindTagEnd(text, nameEnd, None);
    if nameEnd == j || gt.None? then None
    else Some(Tag(closing, text[j..nameEnd], text[gt.value - 1] == '/', gt.value + 1))
  }

  predicate IsNameCharacter(c: Byte) { 'A' <= c <= 'Z' || 'a' <= c <= 'z' || '0' <= c <= '9' || c == '-' }

  /** A letter and then letters, digits and hyphens, as many as there are. */
  predicate IsName(text: Text, j: nat, e: nat) {
    && j < e <= |text| && ('A' <= text[j] <= 'Z' || 'a' <= text[j] <= 'z')
    && (forall k :: j <= k < e ==> IsNameCharacter(text[k]))
    && (e < |text| ==> !IsNameCharacter(text[e]))
  }

  /** At i stands this tag: '<', a '/' when it closes, its name, and then anything up to the first
      angle bracket outside quotes, which is a '>'; a '/' in front of that closes the tag itself. */
  predicate SpellsTag(text: Text, i: nat, tag: Tag) {
    && i + 1 < |text| && text[i] == '<' && (tag.closing <==> text[i + 1] == '/')
    && var j := if tag.closing then i + 2 else i + 1;
       var e := j + |tag.name|;
       && IsName(text, j, e) && text[j..e] == tag.name
       && 0 < tag.end <= |text| && FirstAngle(text, e, e, tag.end - 1) && text[tag.end - 1] == '>'
       && (tag.selfClosing <==> text[tag.end - 2] == '/')
  }

  lemma NameExactlyWhen(text: Text, j: nat, e: nat)
    requires j <= |text|
    ensures IsName(text, j, e) <==> TagNameEnd(text, j) == e > j
  {
    if IsName(text, j, e) { NameReaches(text, j + 1, e); }
  }

  lemma {:induction false} NameReaches(text: Text, j: nat, e: nat)
    requires j <= e <= |text| && (forall k :: j <= k < e ==> IsNameCharacter(text[k]))
    requires e < |text| ==> !IsNameCharacter(text[e])
    ensures NameRunEnd(text, j) == e
    decreases e - j
  {
    if j < e { NameReaches(text, j + 1, e); }
  }

  lemma TagAtExactlyWhen(text: Text, i: nat, tag: Tag)
    requires i < |text| && text[i] == '<'
    ensures TagAt(text, i) == Some(tag) <==> SpellsTag(text, i, tag)
  {
    hide FindTagEnd, FirstAngle, TagNameEnd, IsName;
    var closing := i + 1 < |text| && text[i + 1] == '/';
    var j := if closing then i + 2 else i + 1;
    var e := TagNameEnd(text, j);
    NameExactlyWhen(text, j, e);
    if SpellsTag(text, i, tag) {
      NameExactlyWhen(text, j, j + |tag.name|);
      TagEndIsTheFirstAngle(text, e, e, tag.end - 1);
    }
    if e > j && FindTagEnd(text, e, None).Some? { TagEndIsTheFirstAngle(text, e, e, FindTagEnd(text, e, None).value); }
  }

  /** The quote c is open at k exactly when it was opened outside quotes and has not come up since. */
  lemma {:induction false} QuoteOpenExactlyWhen(text: Text, j: nat, k: nat, c: Byte)
    requires j <= k <= |text|
    ensures QuoteAt(text, j, k) == Some(c) <==> exists o :: OpenedAt(text, j, o, k, c)
    decreases k
  {
    if j < k {
      QuoteOpenExactlyWhen(text, j, k - 1, c);
      if QuoteAt(text, j, k) == Some(c) {
        if QuoteAt(text, j, k - 1).None? {
          assert OpenedAt(text, j, k - 1, k, c);
        } else {
          var o :| OpenedAt(text, j, o, k - 1, c);
          assert OpenedAt(text, j, o, k, c);
        }
      }
      if o :| OpenedAt(text, j, o, k, c) {
        assert o < k - 1 ==> OpenedAt(text, j, o, k - 1, c);
      }
    }
  }

  predicate OpenedAt(text: Text, j: nat, o: int, k: nat, c: Byte) {
    && j <= o < k <= |text| && text[o] == c && (c == '"' || c == '\'') && QuoteAt(text, j, o).None?
    && forall p :: o < p < k ==> text[p] != c
  }

  /** The same name but for the case of its letters. */
  predicate EqualFold(a: Text, b: Text) {
    |a| == |b| && forall k :: 0 <= k < |a| ==> SameLetter(a[k], b[k])
  }

  /** A tag of the element's name, in whatever case, goes one deeper, or one up when it closes. */
  lemma ChangeExactlyWhen(tag: Tag, name: Text)
    ensures Change(tag, name) ==
            if !EqualFold(tag.name, name) then 0 else if tag.closing then -1 else if tag.selfClosing then 0 else 1
  {
    LowerExactlyWhen(tag.name, name);
  }

  lemma LowerExactlyWhen(a: Text, b: Text)
    ensures Lower(a) == Lower(b) <==> EqualFold(a, b)
  {
    if Lower(a) == Lower(b) {
      forall k | 0 <= k < |a| ensures |a| == |b| && SameLetter(a[k], b[k]) {
        assert Lower(a)[k] == Lower(b)[k];
      }
    }
    if EqualFold(a, b) {
      assert forall k :: 0 <= k < |a| ==> Lower(a)[k] == Lower(b)[k];
    }
  }

  predicate SameLetter(x: Byte, y: Byte) {
    x == y || ('A' <= x <= 'Z' && y as int == x as int + 32) || ('A' <= y <= 'Z' && x as int == y as int + 32)
  }

  function Lower(s: Text): Text {
    seq(|s|, k requires 0 <= k < |s| =>
      if 'A' <= s[k] <= 'Z' then (s[k] as int + ('a' as int - 'A' as int)) as char else s[k])
  }

  /** What a tag does to the depth of nesting inside the element called name. */
  function Change(tag: Tag, name: Text): (c: int)
    ensures -1 <= c <= 1
  {
    if Lower(tag.name) != Lower(name) then 0
    else if tag.closing then -1
    else if tag.selfClosing then 0
    else 1
  }

  /** All the tags from k on that begin outside the mask. */
  function Tags(text: Text, mask: seq<bool>, k: nat): seq<Tag>
    requires |mask| == |text| && k <= |text|
    decreases |text| - k
  {
    if k == |text| then []
    else if mask[k] || text[k] != '<' || TagAt(text, k).None? then Tags(text, mask, k + 1)
    else [TagAt(text, k).value] + Tags(text, mask, TagAt(text, k).value.end)
  }

  function Balance(tags: seq<Tag>, name: Text): int {
    if tags == [] then 0 else Change(tags[0], name) + Balance(tags[1..], name)
  }

  /** The end of the tag that takes the depth to nothing. */
  function MatchingClose(text: Text, mask: seq<bool>, k: nat, name: Text, depth: nat): (end: Option<nat>)
    requires |mask| == |text| && k <= |text| && depth > 0
    ensures end.Some? ==> k < end.value <= |text| && text[end.value - 1] == '>'
    decreases |text| - k
  {
    if k == |text| then None
    else if mask[k] || text[k] != '<' || TagAt(text, k).None? then MatchingClose(text, mask, k + 1, name, depth)
    else
      var tag := TagAt(text, k).value;
      if depth + Change(tag, name) == 0 then Some(tag.end)
      else MatchingClose(text, mask, tag.end, name, depth + Change(tag, name))
  }

  /** The first m tags balance the depth, and no fewer do. */
  ghost predicate BalancesAt(tags: seq<Tag>, name: Text, depth: nat, m: nat) {
    && m <= |tags|
    && depth + Balance(tags[..m], name) == 0
    && forall h :: 0 <= h < m ==> depth + Balance(tags[..h], name) > 0
  }

  ghost predicate EndsBalanced(tags: seq<Tag>, name: Text, depth: nat, end: nat) {
    exists m: nat :: 0 < m <= |tags| && tags[m - 1].end == end && BalancesAt(tags, name, depth, m)
  }

  ghost predicate NeverBalances(tags: seq<Tag>, name: Text, depth: nat) {
    forall h :: 0 <= h <= |tags| ==> depth + Balance(tags[..h], name) > 0
  }

  /** A section ends with the tag that first balances its opening tag; it has no end exactly when
      the tags after it never do. */
  lemma {:induction false} CloseIsTheFirstBalance(text: Text, mask: seq<bool>, k: nat, name: Text, depth: nat)
    requires |mask| == |text| && k <= |text| && depth > 0
    ensures var end, tags := MatchingClose(text, mask, k, name, depth), Tags(text, mask, k);
            if end.Some? then EndsBalanced(tags, name, depth, end.value) else NeverBalances(tags, name, depth)
    decreases |text| - k
  {
    hide Change, Balance, TagAt;
    var tags := Tags(text, mask, k);
    if k == |text| {
      assert tags == [] && tags[..0] == [] && Balance([], name) == 0 by { EmptyBalance(name); }
    } else if mask[k] || text[k] != '<' || TagAt(text, k).None? {
      CloseIsTheFirstBalance(text, mask, k + 1, name, depth);
    } else {
      var tag := TagAt(text, k).value;
      var rest := Tags(text, mask, tag.end);
      var deeper := depth + Change(tag, name);
      assert tags == [tag] + rest;
      BalanceOfPrefixes(tag, rest, name);
      if deeper == 0 {
        assert BalancesAt(tags, name, depth, 1) && tags[1 - 1].end == tag.end by { EmptyBalance(name); }
      } else {
        CloseIsTheFirstBalance(text, mask, tag.end, name, deeper);
        if MatchingClose(text, mask, tag.end, name, deeper).Some? {
          BalancesLater(tag, rest, name, depth, MatchingClose(text, mask, tag.end, name, deeper).value);
        } else {
          NeverBalancesLater(tag, rest, name, depth);
        }
      }
    }
  }

  lemma BalancesLater(tag: Tag, rest: seq<Tag>, name: Text, depth: nat, end: nat)
    requires depth > 0 && depth + Change(tag, name) > 0 && EndsBalanced(rest, name, depth + Change(tag, name), end)
    ensures EndsBalanced([tag] + rest, name, depth, end)
  {
    hide Change, Balance;
    var tags, deeper := [tag] + rest, depth + Change(tag, name);
    BalanceOfPrefixes(tag, rest, name);
    var m: nat :| 0 < m <= |rest| && rest[m - 1].end == end && BalancesAt(rest, name, deeper, m);
    forall h | 0 <= h < m + 1 ensures depth + Balance(tags[..h], name) > 0 {
      if h > 0 { assert deeper + Balance(rest[..h - 1], name) > 0; }
    }
    assert BalancesAt(tags, name, depth, m + 1) && tags[m + 1 - 1].end == rest[m - 1].end;
  }

  lemma NeverBalancesLater(tag: Tag, rest: seq<Tag>, name: Text, depth: nat)
    requires depth > 0 && depth + Change(tag, name) > 0 && NeverBalances(rest, name, depth + Change(tag, name))
    ensures NeverBalances([tag] + rest, name, depth)
  {
    hide Change, Balance;
    var tags := [tag] + rest;
    BalanceOfPrefixes(tag, rest, name);
    forall h | 0 <= h <= |tags| ensures depth + Balance(tags[..h], name) > 0 {
      if h > 0 { assert depth + Change(tag, name) + Balance(rest[..h - 1], name) > 0; }
    }
  }

  lemma EmptyBalance(name: Text)
    ensures Balance([], name) == 0
  {
  }

  lemma BalanceOfPrefixes(tag: Tag, rest: seq<Tag>, name: Text)
    ensures Balance(([tag] + rest)[..0], name) == 0
    ensures forall h :: 0 < h <= |rest| + 1 ==> Balance(([tag] + rest)[..h], name) == Change(tag, name) + Balance(rest[..h - 1], name)
  {
    forall h | 0 < h <= |rest| + 1
      ensures Balance(([tag] + rest)[..h], name) == Change(tag, name) + Balance(rest[..h - 1], name)
    {
      assert ([tag] + rest)[..h] == [tag] + rest[..h - 1];
      assert ([tag] + rest[..h - 1])[1..] == rest[..h - 1];
    }
  }

  // ---------- the inline pass ----------

  /** Past the HTML construct that begins with the '<' at i: a comment, a tag, or an element
      together with its contents; i when none begins there. */
  function ConstructEnd(text: Text, mask: seq<bool>, i: nat): (end: nat)
    requires |mask| == |text| && i < |text|
    ensures i <= end <= |text|
  {
    if OccursAt(text, "<!--", i) then
      var close := IndexOf(text, "-->", i + 4);
      if close.Some? then close.value + 3 else |text|
    else if TagAt(text, i).None? then i
    else
      var tag := TagAt(text, i).value;
      var close := MatchingClose(text, mask, tag.end, tag.name, 1);
      if tag.closing || tag.selfClosing || close.None? then tag.end else close.value
  }

  /** Past the code span that begins with the backtick at i; i when the run has no equal. */
  function SpanEnd(text: Text, mask: seq<bool>, i: nat): (end: nat)
    requires |mask| == |text| && i < |text|
    ensures i <= end <= |text|
  {
    var runEnd := RunEnd(text, i, '`');
    var close := FindBacktickClose(text, mask, runEnd, runEnd - i);
    if close.Some? then close.value else i
  }

  /** Where the scan goes from i, and whether it hides what it passes. */
  function NextStop(text: Text, mask: seq<bool>, i: nat): (stop: (nat, bool))
    requires |mask| == |text| && i < |text|
    ensures i < stop.0 <= |text|
  {
    if mask[i] then (i + 1, false)
    else if text[i] == '`' then
      if SpanEnd(text, mask, i) > i then (SpanEnd(text, mask, i), true) else (RunEnd(text, i, '`'), false)
    else if text[i] == '<' && ConstructEnd(text, mask, i) > i then (ConstructEnd(text, mask, i), true)
    else (i + 1, false)
  }

  /** The mask from i on, once the code spans and constructs outside mask are hidden too. */
  function Inline(text: Text, mask: seq<bool>, i: nat): (r: seq<bool>)
    requires |mask| == |text| && i <= |text|
    ensures |r| == |text| - i
    decreases |text| - i
  {
    if i == |text| then []
    else
      var (stop, hidden) := NextStop(text, mask, i);
      (if hidden then Fill(stop - i, true) else mask[i..stop]) + Inline(text, mask, stop)
  }

  function NonProse(text: Text): (mask: seq<bool>)
    ensures |mask| == |text|
  {
    Inline(text, Fenced(text), 0)
  }

  // ---------- what the mask hides ----------

  datatype Segment = Segment(start: nat, end: nat)

  /** The code spans and constructs the scan from i finds. */
  function Constructs(text: Text, mask: seq<bool>, i: nat): seq<Segment>
    requires |mask| == |text| && i <= |text|
    decreases |text| - i
  {
    if i == |text| then []
    else
      var (stop, hidden) := NextStop(text, mask, i);
      (if hidden then [Segment(i, stop)] else []) + Constructs(text, mask, stop)
  }

  predicate Covers(c: Segment, p: nat) { c.start <= p < c.end }

  ghost predicate Covered(cs: seq<Segment>, p: nat) { exists c :: c in cs && Covers(c, p) }

  /** Constructs come one after the other. */
  ghost predicate Ahead(cs: seq<Segment>, i: nat, n: nat) {
    && (forall k :: 0 <= k < |cs| ==> i <= cs[k].start < cs[k].end <= n)
    && (forall k, l :: 0 <= k < l < |cs| ==> cs[k].end <= cs[l].start)
  }

  lemma ConstructsUnfold(text: Text, mask: seq<bool>, i: nat)
    requires |mask| == |text| && i < |text|
    ensures var (stop, hidden) := NextStop(text, mask, i);
            && Constructs(text, mask, i) == (if hidden then [Segment(i, stop)] else []) + Constructs(text, mask, stop)
            && Inline(text, mask, i) == (if hidden then Fill(stop - i, true) else mask[i..stop]) + Inline(text, mask, stop)
  {
  }

  lemma {:induction false} ConstructsAreAhead(text: Text, mask: seq<bool>, i: nat)
    requires |mask| == |text| && i <= |text|
    ensures Ahead(Constructs(text, mask, i), i, |text|)
    decreases |text| - i
  {
    hide NextStop;
    if i < |text| {
      var (stop, hidden) := NextStop(text, mask, i);
      var rest := Constructs(text, mask, stop);
      ConstructsUnfold(text, mask, i);
      ConstructsAreAhead(text, mask, stop);
      if hidden {
        assert forall k :: 0 < k < |[Segment(i, stop)] + rest| ==> ([Segment(i, stop)] + rest)[k] == rest[k - 1];
      } else {
        assert [] + rest == rest;
      }
    }
  }

  lemma CoveredByMore(c: Segment, rest: seq<Segment>, p: nat)
    ensures Covered([c] + rest, p) <==> Covers(c, p) || Covered(rest, p)
  {
    assert c in [c] + rest;
    assert forall d :: d in rest ==> d in [c] + rest;
  }

  /** A byte is hidden exactly when the fences hide it or a construct covers it. */
  lemma {:induction false} HiddenExactlyWhen(text: Text, mask: seq<bool>, i: nat, p: nat)
    requires |mask| == |text| && i <= p < |text|
    ensures Inline(text, mask, i)[p - i] <==> mask[p] || Covered(Constructs(text, mask, i), p)
    decreases |text| - i
  {
    hide NextStop, Constructs, Inline;
    var (stop, hidden) := NextStop(text, mask, i);
    var rest := Constructs(text, mask, stop);
    ConstructsUnfold(text, mask, i);
    ConstructsAreAhead(text, mask, stop);
    if stop <= p {
      HiddenExactlyWhen(text, mask, stop, p);
    } else {
      assert !Covered(rest, p);
    }
    if hidden {
      CoveredByMore(Segment(i, stop), rest, p);
    } else {
      assert [] + rest == rest;
    }
  }

  /** Two runs of equally many backticks, and no such run outside the mask in between. */
  ghost predicate IsCodeSpan(text: Text, mask: seq<bool>, c: Segment)
    requires |mask| == |text|
  {
    exists e: nat :: IsRun(text, c.start, e) && FirstClose(text, mask, e, e - c.start, Some(c.end))
  }

  /** "<!--" up to the first "-->" after it, or to the end of the text where there is none. */
  ghost predicate IsComment(text: Text, c: Segment) {
    && OccursAt(text, "<!--", c.start)
    && if c.end == |text| then forall at: nat :: c.start + 4 <= at && at + 3 < |text| ==> !OccursAt(text, "-->", at)
       else c.end >= c.start + 7 && OccursAt(text, "-->", c.end - 3)
            && forall at: nat :: c.start + 4 <= at < c.end - 3 ==> !OccursAt(text, "-->", at)
  }

  /** A single tag, or an opening tag and what follows up to the tag that balances it; an opening
      tag stands alone exactly when nothing balances it. */
  ghost predicate IsMarkup(text: Text, mask: seq<bool>, c: Segment)
    requires |mask| == |text|
  {
    && c.start < |text| && text[c.start] == '<' && TagAt(text, c.start).Some?
    && var tag := TagAt(text, c.start).value;
       if tag.closing || tag.selfClosing then c.end == tag.end
       else
         var inside := Tags(text, mask, tag.end);
         EndsBalanced(inside, tag.name, 1, c.end) || (c.end == tag.end && NeverBalances(inside, tag.name, 1))
  }

  ghost predicate IsConstruct(text: Text, mask: seq<bool>, c: Segment)
    requires |mask| == |text|
  {
    c.start < |text| && !mask[c.start] && (IsCodeSpan(text, mask, c) || IsComment(text, c) || IsMarkup(text, mask, c))
  }

  /** No stop of the scan is inside a run of backticks it has not been told to skip. */
  predicate AtStop(text: Text, mask: seq<bool>, i: nat)
    requires |mask| == |text| && i <= |text|
  {
    BetweenRuns(text, i) || mask[i]
  }

  lemma ConstructEndsWithABracket(text: Text, mask: seq<bool>, i: nat)
    requires |mask| == |text| && i < |text|
    ensures var end := ConstructEnd(text, mask, i); i < end < |text| ==> text[end - 1] == '>'
  {
    hide TagAt;
    if OccursAt(text, "<!--", i) {
      var close := IndexOf(text, "-->", i + 4);
      if close.Some? {
        var at := close.value;
        assert text[at + 2] == text[at..at + 3][2];
      }
    }
  }

  lemma NextStopIsAStop(text: Text, mask: seq<bool>, i: nat)
    requires |mask| == |text| && i < |text| && UniformInLines(text, mask) && AtStop(text, mask, i)
    ensures AtStop(text, mask, NextStop(text, mask, i).0)
  {
    hide ConstructEnd;
    if text[i] == '<' { ConstructEndsWithABracket(text, mask, i); }
    if !mask[i] && text[i] == '`' {
      var e := RunEnd(text, i, '`');
      assert IsRun(text, i, e);
      CloseIsTheFirstEqualRun(text, mask, e, e - i);
    }
  }

  lemma HiddenStopIsAConstruct(text: Text, mask: seq<bool>, i: nat)
    requires |mask| == |text| && i < |text| && UniformInLines(text, mask) && AtStop(text, mask, i)
    requires NextStop(text, mask, i).1
    ensures IsConstruct(text, mask, Segment(i, NextStop(text, mask, i).0))
  {
    if text[i] == '`' {
      SpanIsACodeSpan(text, mask, i);
    } else {
      ConstructIsGenuine(text, mask, i);
    }
  }

  lemma SpanIsACodeSpan(text: Text, mask: seq<bool>, i: nat)
    requires |mask| == |text| && i < |text| && UniformInLines(text, mask) && BetweenRuns(text, i)
    requires text[i] == '`' && SpanEnd(text, mask, i) > i
    ensures IsCodeSpan(text, mask, Segment(i, SpanEnd(text, mask, i)))
  {
    var e := RunEnd(text, i, '`');
    assert IsRun(text, i, e);
    CloseIsTheFirstEqualRun(text, mask, e, e - i);
  }

  lemma ConstructIsGenuine(text: Text, mask: seq<bool>, i: nat)
    requires |mask| == |text| && i < |text| && text[i] == '<' && ConstructEnd(text, mask, i) > i
    ensures var c := Segment(i, ConstructEnd(text, mask, i)); IsComment(text, c) || IsMarkup(text, mask, c)
  {
    hide TagAt, Tags;
    if !OccursAt(text, "<!--", i) {
      var tag := TagAt(text, i).value;
      CloseIsTheFirstBalance(text, mask, tag.end, tag.name, 1);
    }
  }

  lemma {:induction false} ConstructsAreGenuine(text: Text, mask: seq<bool>, i: nat)
    requires |mask| == |text| && i <= |text| && UniformInLines(text, mask) && AtStop(text, mask, i)
    ensures forall c :: c in Constructs(text, mask, i) ==> IsConstruct(text, mask, c)
    decreases |text| - i
  {
    hide NextStop, IsConstruct, AtStop;
    if i < |text| {
      var (stop, hidden) := NextStop(text, mask, i);
      if hidden { HiddenStopIsAConstruct(text, mask, i); }
      NextStopIsAStop(text, mask, i);
      ConstructsAreGenuine(text, mask, stop);
    }
  }

  /** The mask, said outright: a byte is not prose exactly when a fence hides its line, or one of the
      message's code spans, comments, tags and elements covers it. */
  lemma NonProseExactlyWhen(text: Text, p: nat)
    requires p < |text|
    ensures NonProse(text)[p] <==> Fenced(text)[p] || Covered(Constructs(text, Fenced(text), 0), p)
    ensures forall c :: c in Constructs(text, Fenced(text), 0) ==> IsConstruct(text, Fenced(text), c)
  {
    hide Inline, Constructs, IsConstruct, Fenced;
    FencedIsUniform(text);
    HiddenExactlyWhen(text, Fenced(text), 0, p);
    ConstructsAreGenuine(text, Fenced(text), 0);
  }

  /** No run outside the mask has this length and comes at or after from. */
  ghost predicate HasNoEqual(text: Text, mask: seq<bool>, from: nat, length: nat)
    requires |mask| == |text|
  {
    forall k: nat :: !ClosingRun(text, mask, from, length, k)
  }

  /** At p begins no construct, and no run of backticks that a later one equals. */
  ghost predicate IsLiteral(text: Text, mask: seq<bool>, p: nat)
    requires |mask| == |text| && p < |text|
  {
    && (text[p] == '<' ==> !OccursAt(text, "<!--", p) && forall tag :: !SpellsTag(text, p, tag))
    && forall e: nat :: IsRun(text, p, e) ==> HasNoEqual(text, mask, e, e - p)
  }

  /** And nothing is missed: what the mask and the constructs leave is literal text. */
  lemma {:induction false} NothingIsMissed(text: Text, mask: seq<bool>, i: nat, p: nat)
    requires |mask| == |text| && i <= p < |text| && UniformInLines(text, mask) && AtStop(text, mask, i)
    requires !mask[p] && !Covered(Constructs(text, mask, i), p)
    ensures IsLiteral(text, mask, p)
    decreases |text| - i
  {
    hide NextStop, Constructs, ConstructEnd, AtStop, IsLiteral;
    var (stop, hidden) := NextStop(text, mask, i);
    var rest := Constructs(text, mask, stop);
    ConstructsUnfold(text, mask, i);
    if hidden { CoveredByMore(Segment(i, stop), rest, p); } else { assert [] + rest == rest; }
    if stop <= p {
      NextStopIsAStop(text, mask, i);
      NothingIsMissed(text, mask, stop, p);
    } else {
      PlainStop(text, mask, i, p);
    }
  }

  lemma NothingBeginsAt(text: Text, mask: seq<bool>, p: nat)
    requires |mask| == |text| && p < |text| && text[p] == '<' && ConstructEnd(text, mask, p) == p
    ensures !OccursAt(text, "<!--", p) && forall tag :: !SpellsTag(text, p, tag)
  {
    hide SpellsTag, TagAt;
    forall tag ensures !SpellsTag(text, p, tag) { TagAtExactlyWhen(text, p, tag); }
  }

  lemma PlainStop(text: Text, mask: seq<bool>, i: nat, p: nat)
    requires |mask| == |text| && i < |text| && UniformInLines(text, mask) && AtStop(text, mask, i)
    requires !NextStop(text, mask, i).1 && i <= p < NextStop(text, mask, i).0 && !mask[p]
    ensures IsLiteral(text, mask, p)
  {
    hide ConstructEnd, SpellsTag;
    if text[p] == '<' { NothingBeginsAt(text, mask, p); }
    forall e: nat | IsRun(text, p, e) ensures HasNoEqual(text, mask, e, e - p) {
      assert text[p] == '`';
      var end := RunEnd(text, i, '`');
      if text[i] == '`' { RunsAgree(text, i, end, p, e); }
      PlainRun(text, mask, i, e);
    }
  }

  lemma PlainRun(text: Text, mask: seq<bool>, i: nat, e: nat)
    requires |mask| == |text| && i < |text| && UniformInLines(text, mask) && !mask[i]
    requires IsRun(text, i, e) && SpanEnd(text, mask, i) == i
    ensures HasNoEqual(text, mask, e, e - i)
  {
    RunsAgree(text, i, e, i, RunEnd(text, i, '`'));
    CloseIsTheFirstEqualRun(text, mask, e, e - i);
  }

  /** What the mask leaves to the keywords is literal text outside every fence. */
  lemma ProseIsLiteral(text: Text, p: nat)
    requires p < |text| && !NonProse(text)[p]
    ensures !Fenced(text)[p] && IsLiteral(text, Fenced(text), p)
  {
    hide Inline, Constructs, IsLiteral, Fenced, IsConstruct;
    FencedIsUniform(text);
    NonProseExactlyWhen(text, p);
    NothingIsMissed(text, Fenced(text), 0, p);
  }

  // ---------- the scanning loops ----------

  method BacktickRunEnd(text: Text, i: nat) returns (e: nat)
    requires i <= |text|
    ensures e == RunEnd(text, i, '`')
  {
    e := i;
    while e < |text| && text[e] == '`'
      invariant i <= e <= |text| && RunEnd(text, i, '`') == RunEnd(text, e, '`')
    {
      e := e + 1;
    }
  }

  /** The mask the loops consult agrees with the fences from here on. */
  ghost predicate Agrees(masked: array<bool>, mask: seq<bool>, i: nat)
    reads masked
  {
    masked.Length == |mask| && forall p :: i <= p < |mask| ==> masked[p] == mask[p]
  }

  method ScanForBacktickClose(text: Text, from: nat, length: nat, masked: array<bool>, ghost mask: seq<bool>)
      returns (close: Option<nat>)
    requires |mask| == |text| && from <= |text| && Agrees(masked, mask, from)
    ensures close == FindBacktickClose(text, mask, from, length)
  {
    var k := from;
    while k < |text|
      invariant from <= k <= |text|
      invariant FindBacktickClose(text, mask, from, length) == FindBacktickClose(text, mask, k, length)
    {
      if masked[k] {
        k := k + 1;
      } else if text[k] == '`' {
        var e := BacktickRunEnd(text, k);
        if e - k == length { return Some(e); }
        k := e;
      } else {
        k := k + 1;
      }
    }
    return None;
  }

  method ReadTagName(text: Text, i: nat) returns (e: nat)
    requires i <= |text|
    ensures e == TagNameEnd(text, i)
  {
    if i >= |text| || !IsLetter(text[i]) { return i; }
    e := i + 1;
    while e < |text| && IsNameByte(text[e])
      invariant i < e <= |text| && NameRunEnd(text, i + 1) == NameRunEnd(text, e)
    {
      e := e + 1;
    }
  }

  method ScanForTagEnd(text: Text, j: nat) returns (gt: Option<nat>)
    requires j <= |text|
    ensures gt == FindTagEnd(text, j, None)
  {
    var quote: Option<Byte> := None;
    for k := j to |text|
      invariant FindTagEnd(text, j, None) == FindTagEnd(text, k, quote)
    {
      var c := text[k];
      if quote.Some? {
        if c == quote.value { quote := None; }
      } else if c == '"' || c == '\'' {
        quote := Some(c);
      } else if c == '>' {
        return Some(k);
      } else if c == '<' {
        return None;
      }
    }
    return None;
  }

  method ReadTag(text: Text, i: nat) returns (tag: Option<Tag>)
    requires i < |text|
    ensures tag == TagAt(text, i)
  {
    var j := i + 1;
    var closing := false;
    if j < |text| && text[j] == '/' {
      closing := true;
      j := j + 1;
    }
    var nameEnd := ReadTagName(text, j);
    if nameEnd == j { return None; }
    var gt := ScanForTagEnd(text, nameEnd);
    if gt.None? { return None; }
    return Some(Tag(closing, text[j..nameEnd], text[gt.value - 1] == '/', gt.value + 1));
  }

  method ScanForMatchingClose(text: Text, start: nat, name: Text, masked: array<bool>, ghost mask: seq<bool>)
      returns (end: Option<nat>)
    requires |mask| == |text| && start <= |text| && Agrees(masked, mask, start)
    ensures end == MatchingClose(text, mask, start, name, 1)
  {
    hide TagAt;
    var depth := 1;
    var k := start;
    while k < |text|
      invariant start <= k <= |text| && depth > 0
      invariant MatchingClose(text, mask, start, name, 1) == MatchingClose(text, mask, k, name, depth)
    {
      if masked[k] || text[k] != '<' {
        k := k + 1;
      } else {
        var tag := ReadTag(text, k);
        if tag.None? {
          k := k + 1;
        } else {
          if Lower(tag.value.name) == Lower(name) {
            if tag.value.closing {
              depth := depth - 1;
              if depth == 0 { return Some(tag.value.end); }
            } else if !tag.value.selfClosing {
              depth := depth + 1;
            }
          }
          k := tag.value.end;
        }
      }
    }
    return None;
  }

  /** Masks the construct at i, if one begins there, and returns where it ends. */
  method MaskTagAt(text: Text, i: nat, masked: array<bool>, ghost mask: seq<bool>) returns (end: nat)
    requires |mask| == |text| && i < |text| && Agrees(masked, mask, i)
    modifies masked
    ensures end == ConstructEnd(text, mask, i)
    ensures masked[..] == old(masked[..i]) + Fill(end - i, true) + old(masked[end..])
  {
    hide TagAt, MatchingClose, Lower;
    if OccursAt(text, "<!--", i) {
      var close := IndexOf(text, "-->", i + 4);
      end := if close.Some? then close.value + 3 else |text|;
      MaskRange(masked, i, end);
      return;
    }
    var read := ReadTag(text, i);
    if read.None? {
      end := i;
      assert masked[..] == masked[..i] + masked[i..];
      return;
    }
    var tag := read.value;
    MaskRange(masked, i, tag.end);
    if tag.closing || tag.selfClosing { return tag.end; }
    var close := ScanForMatchingClose(text, tag.end, tag.name, masked, mask);
    if close.None? { return tag.end; }
    MaskRange(masked, tag.end, close.value);
    return close.value;
  }

  /** strings.Contains(text, "`") and so on: whether anything could be hidden at all. */
  predicate HasTrigger(text: Text) { '`' in text || '<' in text || IndexOf(text, "~~~", 0).Some? }

  /** One stop of the scan: masks what begins at i, if it is to be hidden, and returns where to go on. */
  method MaskStop(text: Text, i: nat, masked: array<bool>, ghost mask: seq<bool>) returns (next: nat)
    requires |mask| == |text| && i < |text| && Agrees(masked, mask, i)
    modifies masked
    ensures next == NextStop(text, mask, i).0
    ensures masked[..] == old(masked[..i]) + Share(text, mask, i) + old(masked[next..])
  {
    hide ConstructEnd, FindBacktickClose, RunEnd;
    if masked[i] {
      next := i + 1;
    } else if text[i] == '`' {
      var runEnd := BacktickRunEnd(text, i);
      var close := ScanForBacktickClose(text, runEnd, runEnd - i, masked, mask);
      if close.Some? {
        MaskRange(masked, i, close.value);
        return close.value;
      }
      next := runEnd;
    } else if text[i] == '<' {
      next := MaskTagAt(text, i, masked, mask);
      if next > i { return; }
      next := i + 1;
    } else {
      next := i + 1;
    }
    LeftAsIs(masked, mask, i, next);
  }

  lemma LeftAsIs(masked: array<bool>, mask: seq<bool>, i: nat, next: nat)
    requires Agrees(masked, mask, i) && i <= next <= |mask|
    ensures masked[..] == masked[..i] + mask[i..next] + masked[next..]
  {
  }

  /** What a stop contributes to the mask. */
  function Share(text: Text, mask: seq<bool>, i: nat): (share: seq<bool>)
    requires |mask| == |text| && i < |text|
    ensures |share| == NextStop(text, mask, i).0 - i
  {
    var (stop, hidden) := NextStop(text, mask, i);
    if hidden then Fill(stop - i, true) else mask[i..stop]
  }

  /** Phase 2, from left to right over what the fences leave. */
  method MaskInline(text: Text, masked: array<bool>, ghost mask: seq<bool>)
    requires |mask| == |text| && masked[..] == mask
    modifies masked
    ensures masked[..] == Inline(text, mask, 0)
  {
    hide NextStop, Inline, Share, Constructs;
    var i := 0;
    ghost var done: seq<bool> := [];
    assert done + Inline(text, mask, 0) == Inline(text, mask, 0);
    while i < |text|
      invariant 0 <= i <= |text| && masked.Length == |text|
      invariant done == masked[..i] && Agrees(masked, mask, i)
      invariant done + Inline(text, mask, i) == Inline(text, mask, 0)
    {
      ghost var share, tail := Share(text, mask, i), masked[..];
      SharesAddUp(text, mask, i);
      var next := MaskStop(text, i, masked, mask);
      MoveLine(done, share, Inline(text, mask, next), Inline(text, mask, 0));
      assert masked[..next] == done + share;
      assert forall p :: next <= p < |text| ==> masked[p] == tail[p];
      done := done + share;
      i := next;
    }
    assert |Inline(text, mask, |text|)| == 0;
    assert masked[..] == masked[..|text|];
  }

  lemma SharesAddUp(text: Text, mask: seq<bool>, i: nat)
    requires |mask| == |text| && i < |text|
    ensures Inline(text, mask, i) == Share(text, mask, i) + Inline(text, mask, NextStop(text, mask, i).0)
  {
  }

  method MaskNonProse(text: Text) returns (masked: array<bool>)
    ensures fresh(masked) && masked[..] == NonProse(text)
  {
    masked := new bool[|text|](_ => false);
    if !HasTrigger(text) {
      NothingToHide(text);
      return;
    }
    MaskFences(text, masked);
    MaskInline(text, masked, Fenced(text));
  }

  /** The shortcut hides nothing that the two passes would have hidden. */
  lemma NothingToHide(text: Text)
    requires !HasTrigger(text)
    ensures NonProse(text) == Fill(|text|, false)
  {
    hide Inline, LinesMask;
    FencedFromTheStart(text);
    NoFence(text, 0);
    assert [] + LinesMask(Lines.Split(text[0..]), Outside) == LinesMask(Lines.Split(text[0..]), Outside);
    NothingInline(text, Fenced(text), 0);
  }

  lemma {:induction false} NoFence(text: Text, i: nat)
    requires i <= |text| && !HasTrigger(text)
    ensures LinesMask(Lines.Split(text[i..]), Outside) == Fill(|text| - i, false)
    decreases |text| - i
  {
    hide LinesMask;
    var nl := LineEnd(text, i);
    LinesMaskStep(text, i, Outside);
    NoOpening(text, i, nl);
    if nl < |text| { NoFence(text, nl + 1); }
  }

  lemma NoOpening(text: Text, i: nat, nl: nat)
    requires i <= nl <= |text| && !HasTrigger(text)
    ensures !Opens(text[i..nl])
  {
    var line := text[i..nl];
    var m := FenceMarker(line);
    if m.length >= 3 {
      var at := i + m.indent;
      assert line[m.indent] == text[at];
      var c := line[m.indent];
      assert line[m.indent + 1] == c && line[m.indent + 2] == c;
      assert text[at..at + 3] == [c, c, c];
      assert c == '~' ==> OccursAt(text, "~~~", at);
    }
  }

  lemma {:induction false} NothingInline(text: Text, mask: seq<bool>, i: nat)
    requires |mask| == |text| && i <= |text| && !HasTrigger(text)
    ensures Inline(text, mask, i) == mask[i..]
    decreases |text| - i
  {
    if i < |text| {
      assert text[i] in text;
      NothingInline(text, mask, i + 1);
    }
  }
}
