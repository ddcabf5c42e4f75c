/** Magic keywords (internal/runtime/chatkw.go): which words of a chat message fire, and what is
    left of the message once they are taken out. */
module Keywords {
  import opened ProseMask
  import opened Utf8
  import opened Wrappers

  datatype MagicKeyword = MagicKeyword(word: Text, reasoningEffort: Text)

  /** One occurrence that fires: its byte range and the behaviour it selects. */
  datatype Match = Match(start: nat, end: nat, kw: MagicKeyword)

  /** The letters and the numbers of unicode.IsLetter and unicode.IsNumber. */
  datatype Alphabet = Alphabet(letters: set<Rune>, numbers: set<Rune>) {
    predicate Sound() { forall r :: 'a' as int <= r <= 'z' as int ==> r in letters }
  }

  const MAGIC_KEYWORDS := [MagicKeyword("ultrathink", "high")]

  predicate IsWord(word: Text) { word != "" && forall k :: 0 <= k < |word| ==> 'a' <= word[k] <= 'z' }

  /** A catalogue of distinct lowercase words. */
  predicate ValidCatalogue(catalogue: seq<MagicKeyword>) {
    && (forall k :: 0 <= k < |catalogue| ==> IsWord(catalogue[k].word))
    && (forall k, l :: 0 <= k < l < |catalogue| ==> catalogue[k].word != catalogue[l].word)
  }

  lemma TheCatalogueIsValid()
    ensures ValidCatalogue(MAGIC_KEYWORDS)
    ensures |MAGIC_KEYWORDS| == 1 && MAGIC_KEYWORDS[0].word == "ultrathink" && MAGIC_KEYWORDS[0].reasoningEffort == "high"
  {
  }

  // ---------- which occurrences fire ----------

  /** Word characters and the joiners of paths and identifiers. */
  predicate IsBoundRune(a: Alphabet, r: Rune) {
    r in a.letters || r in a.numbers || r == '_' as int || r == '/' as int || r == '\\' as int || r == '-' as int
  }

  predicate IsExtensionRune(a: Alphabet, r: Rune) {
    r in a.letters || r in a.numbers || r == '_' as int || r == '-' as int
  }

  /** In front of a word no letter, number or underscore may stand, no dot, slash, backslash or hyphen,
      and no double colon. */
  lemma LeftIsFreeExactlyWhen(a: Alphabet, before: Text, r: Rune, rest: Text)
    requires IsScalar(r)
    ensures var text := before + Encode(r) + rest;
            LeftIsFree(a, text, |before + Encode(r)|) <==>
              && r !in a.letters && r !in a.numbers
              && r !in {'_' as int, '.' as int, '/' as int, '\\' as int, '-' as int}
              && !(r == ':' as int && before != "" && before[|before| - 1] == ':')
    ensures LeftIsFree(a, rest, 0)
  {
    hide Encode, DecodeLastRune;
    var text, start := before + Encode(r) + rest, |before + Encode(r)|;
    EncodedIsDecodedLast(r, before);
    assert text[..start] == before + Encode(r);
    ColonIsColon(r);
    assert before != "" ==> text[|before| - 1] == before[|before| - 1];
    assert text[start - 1] == Encode(r)[|Encode(r)| - 1];
  }

  /** The byte ':' stands in no encoding but its own. */
  lemma ColonIsColon(r: Rune)
    requires IsScalar(r)
    ensures r == ':' as int <==> Encode(r)[|Encode(r)| - 1] == ':'
    ensures r == ':' as int ==> |Encode(r)| == 1
  {
  }

  /** Behind a word none of these may stand either, but a dot with no extension behind it may; and no
      opening parenthesis. */
  lemma RightIsFreeExactlyWhen(a: Alphabet, front: Text, r: Rune, rest: Text)
    requires IsScalar(r)
    ensures RightIsFree(a, front + Encode(r) + rest, |front|) <==>
              && r !in a.letters && r !in a.numbers
              && r !in {'_' as int, '/' as int, '\\' as int, '-' as int, '(' as int}
              && !(r == '.' as int && rest != ""
                   && var n := DecodeRune(rest).rune;
                      n in a.letters || n in a.numbers || n == '_' as int || n == '-' as int)
    ensures RightIsFree(a, front, |front|)
  {
    hide Encode, DecodeRune;
    var text, end := front + Encode(r) + rest, |front|;
    EncodedIsDecoded(r, rest);
    assert text[end..] == Encode(r) + rest;
    if r == '.' as int {
      assert Encode(r) == "." by { DotIsDot(); }
      assert text[end + 1..] == rest;
    }
  }

  lemma DotIsDot()
    ensures Encode('.' as int) == "."
  {
  }

  predicate LeftIsFree(a: Alphabet, text: Text, start: nat)
    requires start <= |text|
  {
    start > 0 ==>
      && !(start >= 2 && text[start - 2] == ':' && text[start - 1] == ':')
      && var r := DecodeLastRune(text[..start]).rune;
         !IsBoundRune(a, r) && r != '.' as int
  }

  predicate RightIsFree(a: Alphabet, text: Text, end: nat)
    requires end <= |text|
  {
    end < |text| ==>
      var r := DecodeRune(text[end..]).rune;
      && !IsBoundRune(a, r) && r != '(' as int
      && (r == '.' as int && end + 1 < |text| ==> !IsExtensionRune(a, DecodeRune(text[end + 1..]).rune))
  }

  predicate IsStandaloneWord(a: Alphabet, text: Text, start: nat, end: nat)
    requires start <= |text| && end <= |text|
  {
    LeftIsFree(a, text, start) && RightIsFree(a, text, end)
  }

  predicate OverlapsMask(mask: seq<bool>, start: nat, end: nat)
    requires start <= end <= |mask|
  {
    exists p :: start <= p < end && mask[p]
  }

  /** The word occurs at start, in prose throughout, and stands alone. */
  predicate FiresAt(a: Alphabet, text: Text, mask: seq<bool>, word: Text, start: nat)
    requires |mask| == |text|
  {
    && OccursAt(text, word, start)
    && !OverlapsMask(mask, start, start + |word|)
    && IsStandaloneWord(a, text, start, start + |word|)
  }

  predicate IsFiring(a: Alphabet, catalogue: seq<MagicKeyword>, text: Text, mask: seq<bool>, m: Match)
    requires |mask| == |text|
  {
    m.kw in catalogue && m.end == m.start + |m.kw.word| && FiresAt(a, text, mask, m.kw.word, m.start)
  }

  /** The word stands there, no byte of it is masked, and both its sides are free. */
  lemma FiresExactlyWhen(a: Alphabet, text: Text, mask: seq<bool>, word: Text, start: nat)
    requires |mask| == |text|
    ensures FiresAt(a, text, mask, word, start) <==>
            && start + |word| <= |text| && text[start..start + |word|] == word
            && (forall p :: start <= p < start + |word| ==> !mask[p])
            && LeftIsFree(a, text, start) && RightIsFree(a, text, start + |word|)
  {
  }

  /** A word preceded or followed by a lowercase letter does not stand alone. */
  lemma LetterBeside(a: Alphabet, text: Text, p: nat)
    requires a.Sound() && p < |text| && 'a' <= text[p] <= 'z'
    ensures !LeftIsFree(a, text, p + 1) && !RightIsFree(a, text, p)
  {
    var r := text[p] as int;
    assert text[..p + 1][p] == text[p] && text[p..][0] == text[p];
    assert DecodeLastRune(text[..p + 1]).rune == r && DecodeRune(text[p..]).rune == r;
    assert r in a.letters;
  }

  lemma LetterOfAWord(text: Text, word: Text, at: nat, p: nat)
    requires OccursAt(text, word, at) && at <= p < at + |word|
    ensures p < |text| && text[p] == word[p - at]
  {
    assert text[at..at + |word|][p - at] == text[p];
  }

  /** So no word fires inside an occurrence of another, or of itself. */
  lemma NothingFiresInside(a: Alphabet, text: Text, mask: seq<bool>, word: Text, at: nat, other: Text, p: nat)
    requires a.Sound() && |mask| == |text| && IsWord(word)
    requires OccursAt(text, word, at) && at < p < at + |word|
    ensures !FiresAt(a, text, mask, other, p)
  {
    LetterOfAWord(text, word, at, p - 1);
    LetterBeside(a, text, p - 1);
  }

  predicate Disjoint(m: Match, n: Match) { m.end <= n.start || n.end <= m.start }

  /** Two occurrences that fire never overlap. */
  lemma FiringsAreDisjoint(a: Alphabet, catalogue: seq<MagicKeyword>, text: Text, mask: seq<bool>, m: Match, n: Match)
    requires a.Sound() && ValidCatalogue(catalogue) && |mask| == |text|
    ensures IsFiring(a, catalogue, text, mask, m) && IsFiring(a, catalogue, text, mask, n) && m != n ==> Disjoint(m, n)
  {
    hide LeftIsFree, RightIsFree, OverlapsMask;
    if !(IsFiring(a, catalogue, text, mask, m) && IsFiring(a, catalogue, text, mask, n) && m != n) {
    } else if m.start < n.start < m.end {
      NothingFiresInside(a, text, mask, m.kw.word, m.start, n.kw.word, n.start);
    } else if n.start < m.start < n.end {
      NothingFiresInside(a, text, mask, n.kw.word, n.start, m.kw.word, m.start);
    } else if m.start == n.start {
      if m.end < n.end {
        ShorterDoesNotFire(a, text, mask, n.kw.word, n.start, m.kw.word);
      } else if n.end < m.end {
        ShorterDoesNotFire(a, text, mask, m.kw.word, m.start, n.kw.word);
      } else {
        SameRangeSameKeyword(a, catalogue, text, mask, m, n);
      }
    }
  }

  lemma SameRangeSameKeyword(a: Alphabet, catalogue: seq<MagicKeyword>, text: Text, mask: seq<bool>, m: Match, n: Match)
    requires ValidCatalogue(catalogue) && |mask| == |text|
    requires IsFiring(a, catalogue, text, mask, m) && IsFiring(a, catalogue, text, mask, n)
    requires m.start == n.start && m.end == n.end
    ensures m == n
  {
    assert m.kw.word == text[m.start..m.end] && n.kw.word == text[m.start..m.end];
  }

  lemma ShorterDoesNotFire(a: Alphabet, text: Text, mask: seq<bool>, word: Text, at: nat, shorter: Text)
    requires a.Sound() && |mask| == |text| && IsWord(word) && |shorter| < |word| && OccursAt(text, word, at)
    ensures !FiresAt(a, text, mask, shorter, at)
  {
    LetterOfAWord(text, word, at, at + |shorter|);
    LetterBeside(a, text, at + |shorter|);
  }

  // ---------- the search ----------

  /** The firing occurrences of one word from i on, left to right. */
  function FiringsOf(a: Alphabet, text: Text, mask: seq<bool>, kw: MagicKeyword, i: nat): seq<Match>
    requires |mask| == |text| && i <= |text|
    decreases |text| - i
  {
    if i == |text| then []
    else (if FiresAt(a, text, mask, kw.word, i) then [Match(i, i + |kw.word|, kw)] else [])
         + FiringsOf(a, text, mask, kw, i + 1)
  }

  lemma {:induction false} FiringsOfExactlyWhen(a: Alphabet, text: Text, mask: seq<bool>, kw: MagicKeyword, i: nat, m: Match)
    requires |mask| == |text| && i <= |text| && kw.word != ""
    ensures m in FiringsOf(a, text, mask, kw, i)
       <==> m.kw == kw && i <= m.start && m.end == m.start + |kw.word| && FiresAt(a, text, mask, kw.word, m.start)
    decreases |text| - i
  {
    hide FiresAt;
    if i == |text| {
      assert FiresAt(a, text, mask, kw.word, m.start) ==> m.start < |text| by { FiringIsInside(a, text, mask, kw.word, m.start); }
    } else {
      FiringsOfExactlyWhen(a, text, mask, kw, i + 1, m);
    }
  }

  lemma FiringIsInside(a: Alphabet, text: Text, mask: seq<bool>, word: Text, start: nat)
    requires |mask| == |text| && word != ""
    ensures FiresAt(a, text, mask, word, start) ==> start < |text| && start + |word| <= |text|
  {
  }

  lemma {:induction false} NoneInBetween(a: Alphabet, text: Text, mask: seq<bool>, kw: MagicKeyword, i: nat, j: nat)
    requires |mask| == |text| && i <= j <= |text|
    requires forall p :: i <= p < j ==> !FiresAt(a, text, mask, kw.word, p)
    ensures FiringsOf(a, text, mask, kw, i) == FiringsOf(a, text, mask, kw, j)
    decreases j - i
  {
    if i < j { NoneInBetween(a, text, mask, kw, i + 1, j); }
  }

  /** The source's search goes on behind each occurrence it meets, firing or not; what it jumps over
      never fires, so nothing is lost. */
  method SearchWord(a: Alphabet, text: Text, masked: array<bool>, kw: MagicKeyword) returns (found: seq<Match>)
    requires a.Sound() && masked.Length == |text| && IsWord(kw.word)
    ensures found == FiringsOf(a, text, masked[..], kw, 0)
  {
    hide FiringsOf, IsStandaloneWord, OverlapsMask;
    ghost var mask := masked[..];
    found := [];
    var i := 0;
    while i + |kw.word| <= |text|
      invariant 0 <= i <= |text|
      invariant found + FiringsOf(a, text, mask, kw, i) == FiringsOf(a, text, mask, kw, 0)
    {
      var next := IndexOf(text, kw.word, i);
      if next.None? {
        NoneInBetween(a, text, mask, kw, i, |text|);
        NothingAtTheEnd(a, text, mask, kw, |text|);
        assert found + [] == found;
        return;
      }
      var start, end := next.value, next.value + |kw.word|;
      NoneInBetween(a, text, mask, kw, i, start);
      PassOccurrence(a, text, mask, kw, start);
      i := end;
      var touched := TouchesMask(masked, start, end);
      if touched || !IsStandaloneWord(a, text, start, end) {
        assert found + ([] + FiringsOf(a, text, mask, kw, end)) == found + FiringsOf(a, text, mask, kw, end);
        continue;
      }
      var hit := Match(start, end, kw);
      assert found + ([hit] + FiringsOf(a, text, mask, kw, end)) == (found + [hit]) + FiringsOf(a, text, mask, kw, end);
      found := found + [hit];
    }
    NothingAtTheEnd(a, text, mask, kw, i);
    assert found + [] == found;
  }

  lemma NothingAtTheEnd(a: Alphabet, text: Text, mask: seq<bool>, kw: MagicKeyword, i: nat)
    requires |mask| == |text| && i <= |text| && i + |kw.word| > |text| && kw.word != ""
    ensures FiringsOf(a, text, mask, kw, i) == []
  {
    NoneInBetween(a, text, mask, kw, i, |text|);
  }

  /** An occurrence is passed as a whole. */
  lemma PassOccurrence(a: Alphabet, text: Text, mask: seq<bool>, kw: MagicKeyword, start: nat)
    requires a.Sound() && |mask| == |text| && IsWord(kw.word) && OccursAt(text, kw.word, start)
    ensures var end := start + |kw.word|;
            FiringsOf(a, text, mask, kw, start)
            == (if FiresAt(a, text, mask, kw.word, start) then [Match(start, end, kw)] else []) + FiringsOf(a, text, mask, kw, end)
  {
    hide FiresAt;
    var end := start + |kw.word|;
    forall p | start + 1 <= p < end ensures !FiresAt(a, text, mask, kw.word, p) {
      NothingFiresInside(a, text, mask, kw.word, start, kw.word, p);
    }
    NoneInBetween(a, text, mask, kw, start + 1, end);
  }

  method TouchesMask(masked: array<bool>, start: nat, end: nat) returns (touched: bool)
    requires start <= end <= masked.Length
    ensures touched == OverlapsMask(masked[..], start, end)
  {
    for p := start to end
      invariant forall q :: start <= q < p ==> !masked[q]
    {
      if masked[p] {
        assert masked[..][p];
        return true;
      }
    }
    assert forall q :: start <= q < end ==> masked[..][q] == masked[q];
    return false;
  }

  /** What the loop over the catalogue collects: all the ranges, and each word that has one, once. */
  function Collected(a: Alphabet, catalogue: seq<MagicKeyword>, text: Text, mask: seq<bool>): seq<Match>
    requires |mask| == |text|
  {
    if catalogue == [] then []
    else
      var n := |catalogue| - 1;
      Collected(a, catalogue[..n], text, mask) + FiringsOf(a, text, mask, catalogue[n], 0)
  }

  function FiredWords(a: Alphabet, catalogue: seq<MagicKeyword>, text: Text, mask: seq<bool>): seq<MagicKeyword>
    requires |mask| == |text|
  {
    if catalogue == [] then []
    else
      var n := |catalogue| - 1;
      FiredWords(a, catalogue[..n], text, mask)
      + if FiringsOf(a, text, mask, catalogue[n], 0) != [] then [catalogue[n]] else []
  }

  lemma {:induction false} CollectedExactlyWhen(a: Alphabet, catalogue: seq<MagicKeyword>, text: Text, mask: seq<bool>, m: Match)
    requires |mask| == |text| && ValidCatalogue(catalogue)
    ensures m in Collected(a, catalogue, text, mask) <==> IsFiring(a, catalogue, text, mask, m)
  {
    hide FiresAt, FiringsOf;
    if catalogue != [] {
      var n := |catalogue| - 1;
      CollectedExactlyWhen(a, catalogue[..n], text, mask, m);
      FiringsOfExactlyWhen(a, text, mask, catalogue[n], 0, m);
      assert catalogue == catalogue[..n] + [catalogue[n]];
    }
  }

  /** A word is reported exactly when an occurrence of it fires; the reported words keep the order of
      the catalogue and come up once each. */
  lemma {:induction false} FiredExactlyWhen(a: Alphabet, catalogue: seq<MagicKeyword>, text: Text, mask: seq<bool>, kw: MagicKeyword)
    requires |mask| == |text| && ValidCatalogue(catalogue)
    ensures kw in FiredWords(a, catalogue, text, mask)
       <==> kw in catalogue && exists p: nat :: FiresAt(a, text, mask, kw.word, p)
  {
    hide FiresAt, FiringsOf;
    if catalogue != [] {
      var n := |catalogue| - 1;
      var last := catalogue[n];
      FiredExactlyWhen(a, catalogue[..n], text, mask, kw);
      assert catalogue == catalogue[..n] + [last];
      HasFirings(a, text, mask, last);
    }
  }

  lemma HasFirings(a: Alphabet, text: Text, mask: seq<bool>, kw: MagicKeyword)
    requires |mask| == |text| && kw.word != ""
    ensures FiringsOf(a, text, mask, kw, 0) != [] <==> exists p: nat :: FiresAt(a, text, mask, kw.word, p)
  {
    hide FiresAt, FiringsOf;
    var all := FiringsOf(a, text, mask, kw, 0);
    if all != [] { FiringsOfExactlyWhen(a, text, mask, kw, 0, all[0]); }
    if p: nat :| FiresAt(a, text, mask, kw.word, p) {
      FiringsOfExactlyWhen(a, text, mask, kw, 0, Match(p, p + |kw.word|, kw));
    }
  }

  /** Places of the reported words in the catalogue: strictly increasing. */
  ghost predicate InOrder(fired: seq<MagicKeyword>, catalogue: seq<MagicKeyword>, places: seq<nat>) {
    && |places| == |fired|
    && (forall k :: 0 <= k < |fired| ==> places[k] < |catalogue| && fired[k] == catalogue[places[k]])
    && (forall k, l :: 0 <= k < l < |fired| ==> places[k] < places[l])
  }

  lemma {:induction false} FiredInOrder(a: Alphabet, catalogue: seq<MagicKeyword>, text: Text, mask: seq<bool>) returns (places: seq<nat>)
    requires |mask| == |text|
    ensures InOrder(FiredWords(a, catalogue, text, mask), catalogue, places)
  {
    hide FiringsOf;
    places := [];
    if catalogue != [] {
      var n := |catalogue| - 1;
      places := FiredInOrder(a, catalogue[..n], text, mask);
      if FiringsOf(a, text, mask, catalogue[n], 0) != [] { places := places + [n]; }
    }
  }

  // ---------- putting the ranges in order ----------

  predicate Apart(ms: seq<Match>) { forall k, l :: 0 <= k < l < |ms| ==> Disjoint(ms[k], ms[l]) }

  predicate SortedByStart(ms: seq<Match>) { forall k, l :: 0 <= k < l < |ms| ==> ms[k].start <= ms[l].start }

  predicate Permuted(ms: seq<Match>, ns: seq<Match>) { multiset(ms) == multiset(ns) }

  /** Each range ends before the next begins. */
  predicate InSequence(ms: seq<Match>) { forall k, l :: 0 <= k < l < |ms| ==> ms[k].end <= ms[l].start }

  lemma SwapKeeps(ms: seq<Match>, j: nat)
    requires 0 < j < |ms|
    ensures var swapped := ms[j := ms[j - 1]][j - 1 := ms[j]];
            Permuted(ms, swapped) && (Apart(ms) ==> Apart(swapped))
  {
    var swapped := ms[j := ms[j - 1]][j - 1 := ms[j]];
    if Apart(ms) {
      forall k, l | 0 <= k < l < |ms| ensures Disjoint(swapped[k], swapped[l]) {
        var k', l' := Unswap(j, k), Unswap(j, l);
        assert swapped[k] == ms[k'] && swapped[l] == ms[l'];
        assert if k' < l' then Disjoint(ms[k'], ms[l']) else Disjoint(ms[l'], ms[k']);
      }
    }
  }

  function Unswap(j: nat, k: nat): nat
    requires j > 0
  {
    if k == j then j - 1 else if k == j - 1 then j else k
  }

  /** now is a reordering of was and no worse for it. */
  predicate Reordered(was: seq<Match>, now: seq<Match>) {
    |now| == |was| && Permuted(was, now) && (Apart(was) ==> Apart(now))
  }

  lemma ReorderedOnceMore(was: seq<Match>, ms: seq<Match>, j: nat)
    requires Reordered(was, ms) && 0 < j < |ms|
    ensures Reordered(was, ms[j := ms[j - 1]][j - 1 := ms[j]])
  {
    SwapKeeps(ms, j);
  }

  /** One round of the insertion sort: range i moves down to its place. */
  method Sink(ms: array<Match>, i: nat, ghost was: seq<Match>)
    requires i < ms.Length && SortedByStart(ms[..i]) && Reordered(was, ms[..])
    modifies ms
    ensures SortedByStart(ms[..i + 1]) && Reordered(was, ms[..])
  {
    hide Reordered, SortedByStart;
    var j := i;
    SortedButOne(ms[..], i);
    while j > 0 && ms[j].start < ms[j - 1].start
      invariant 0 <= j <= i
      invariant forall k, l :: 0 <= k < l <= i && l != j ==> ms[k].start <= ms[l].start
      invariant Reordered(was, ms[..])
    {
      ReorderedOnceMore(was, ms[..], j);
      ghost var before := ms[..];
      ms[j], ms[j - 1] := ms[j - 1], ms[j];
      assert ms[..] == before[j := before[j - 1]][j - 1 := before[j]];
      j := j - 1;
    }
    SortedAgain(ms[..], i, j);
  }

  lemma SortedButOne(ms: seq<Match>, i: nat)
    requires i < |ms| && SortedByStart(ms[..i])
    ensures forall k, l :: 0 <= k < l <= i && l != i ==> ms[k].start <= ms[l].start
  {
    assert forall k :: 0 <= k < i ==> ms[..i][k] == ms[k];
  }

  lemma SortedAgain(ms: seq<Match>, i: nat, j: nat)
    requires j <= i < |ms| && (j > 0 ==> ms[j - 1].start <= ms[j].start)
    requires forall k, l :: 0 <= k < l <= i && l != j ==> ms[k].start <= ms[l].start
    ensures SortedByStart(ms[..i + 1])
  {
    forall k | 0 <= k < j ensures ms[k].start <= ms[j].start {
      if k < j - 1 { assert ms[k].start <= ms[j - 1].start; }
    }
  }

  method SortByStart(ms: array<Match>)
    modifies ms
    ensures SortedByStart(ms[..]) && Reordered(old(ms[..]), ms[..])
  {
    var i := 1;
    while i < ms.Length
      invariant 1 <= i && (i <= ms.Length ==> SortedByStart(ms[..i]))
      invariant i > ms.Length ==> ms.Length == 0
      invariant Reordered(old(ms[..]), ms[..])
    {
      Sink(ms, i, old(ms[..]));
      i := i + 1;
    }
    assert ms.Length > 0 ==> ms[..i] == ms[..];
  }

  lemma SortedApartIsInSequence(ms: seq<Match>)
    requires SortedByStart(ms) && Apart(ms) && forall k :: 0 <= k < |ms| ==> ms[k].start < ms[k].end
    ensures InSequence(ms)
  {
  }

  // ---------- taking them out ----------

  function Span(lo: nat, hi: nat): (s: seq<nat>)
    ensures |s| == if lo <= hi then hi - lo else 0
    ensures forall k :: 0 <= k < |s| ==> s[k] == lo + k
  {
    if lo <= hi then seq(hi - lo, k requires 0 <= k => lo + k) else []
  }

  /** The bytes at these places. */
  function Pick(text: Text, places: seq<nat>): Text
    requires forall k :: 0 <= k < |places| ==> places[k] < |text|
    ensures |Pick(text, places)| == |places|
  {
    seq(|places|, k requires 0 <= k < |places| => text[places[k]])
  }

  predicate IsSentenceMark(c: Byte) { c == '.' || c == ',' || c == ';' || c == ':' || c == '!' || c == '?' }

  lemma SentenceMarksAre(c: Byte)
    ensures IsSentenceMark(c) <==> c in ".,;:!?"
  {
    assert forall k :: 0 <= k < 6 ==> ".,;:!?"[k] in ".,;:!?";
  }

  /** The places kept so far, and where the text not yet looked at begins. */
  datatype Progress = Progress(kept: seq<nat>, prev: nat)

  /** One range goes, and of its slot the mark behind it with the space in front of it, or one of
      two spaces. */
  function TakeOut(text: Text, p: Progress, m: Match): Progress
    requires forall k :: 0 <= k < |p.kept| ==> p.kept[k] < |text|
    requires m.start <= |text|
  {
    var b := p.kept + Span(p.prev, m.start);
    var spaced := b != [] && text[b[|b| - 1]] == ' ';
    if m.end < |text| && IsSentenceMark(text[m.end]) then Progress(if spaced then b[..|b| - 1] else b, m.end + 1)
    else if m.end < |text| && text[m.end] == ' ' && spaced then Progress(b, m.end + 1)
    else Progress(b, m.end)
  }

  /** The ranges lie one after the other in the text, and each begins with a letter. */
  predicate Strippable(text: Text, ms: seq<Match>) {
    && InSequence(ms)
    && forall k :: 0 <= k < |ms| ==> ms[k].start < ms[k].end <= |text| && 'a' <= text[ms[k].start] <= 'z'
  }

  ghost predicate Increasing(places: seq<nat>, bound: nat) {
    && (forall k :: 0 <= k < |places| ==> places[k] < bound)
    && (forall k, l :: 0 <= k < l < |places| ==> places[k] < places[l])
  }

  /** The places kept lie before prev, and prev is just past the last range or its slot. */
  ghost predicate Follows(text: Text, ms: seq<Match>, p: Progress) {
    && p.prev <= |text| && Increasing(p.kept, p.prev)
    && (ms == [] ==> p == Progress([], 0))
    && (ms != [] ==>
          var end := ms[|ms| - 1].end;
          p.prev == end || (p.prev == end + 1 && (IsSentenceMark(text[end]) || text[end] == ' ')))
  }

  lemma PrevIsBefore(text: Text, ms: seq<Match>, p: Progress)
    requires Strippable(text, ms) && ms != [] && Follows(text, ms[..|ms| - 1], p)
    ensures p.prev <= ms[|ms| - 1].start
  {
    var n := |ms| - 1;
    if n > 0 { assert ms[..n][n - 1] == ms[n - 1] && ms[n - 1].end <= ms[n].start; }
  }

  lemma TakeOutFollows(text: Text, ms: seq<Match>, p: Progress)
    requires Strippable(text, ms) && ms != [] && Follows(text, ms[..|ms| - 1], p)
    ensures Follows(text, ms, TakeOut(text, p, ms[|ms| - 1]))
  {
    hide Increasing;
    var m := ms[|ms| - 1];
    PrevIsBefore(text, ms, p);
    SpanFollows(p.kept, p.prev, m.start);
    var b := p.kept + Span(p.prev, m.start);
    LooserBound(b, m.start, m.end);
    LooserBound(b, m.start, m.end + 1);
    if b != [] {
      PrefixIncreases(b, m.start);
      LooserBound(b[..|b| - 1], m.start, m.end + 1);
    }
  }

  lemma LooserBound(places: seq<nat>, lo: nat, hi: nat)
    requires Increasing(places, lo) && lo <= hi
    ensures Increasing(places, hi)
  {
  }

  lemma PrefixIncreases(places: seq<nat>, bound: nat)
    requires places != [] && Increasing(places, bound)
    ensures Increasing(places[..|places| - 1], bound)
  {
  }

  lemma SpanFollows(kept: seq<nat>, prev: nat, hi: nat)
    requires Increasing(kept, prev) && prev <= hi
    ensures Increasing(kept + Span(prev, hi), hi)
  {
  }

  function Slots(text: Text, ms: seq<Match>): (p: Progress)
    requires Strippable(text, ms)
    ensures Follows(text, ms, p)
  {
    if ms == [] then Progress([], 0)
    else
      var before := Slots(text, ms[..|ms| - 1]);
      TakeOutFollows(text, ms, before);
      TakeOut(text, before, ms[|ms| - 1])
  }

  function Kept(text: Text, ms: seq<Match>): (places: seq<nat>)
    requires Strippable(text, ms)
    ensures Increasing(places, |text|)
  {
    var p := Slots(text, ms);
    SpanFollows(p.kept, p.prev, |text|);
    p.kept + Span(p.prev, |text|)
  }

  function Stripped(text: Text, ms: seq<Match>): Text
    requires Strippable(text, ms)
  {
    TrimSpace(Pick(text, Kept(text, ms)))
  }

  // ---------- what is taken out, and what stays ----------

  ghost predicate InRange(ms: seq<Match>, p: nat) { exists k :: 0 <= k < |ms| && ms[k].start <= p < ms[k].end }

  /** A space stands in front of the range, nothing else being left between the two. */
  ghost predicate SpaceInFront(text: Text, m: Match, kept: seq<nat>, p: nat) {
    p < m.start && p < |text| && text[p] == ' ' && forall q: nat :: p < q < m.start ==> q !in kept
  }

  /** p is the mark right behind the range, or the space there when another one stands in front, or
      the space in front that goes with a mark. */
  ghost predicate SlotOf(text: Text, m: Match, kept: seq<nat>, p: nat)
    requires p < |text|
  {
    || (p == m.end && IsSentenceMark(text[p]))
    || (p == m.end && text[p] == ' ' && exists q: nat :: SpaceInFront(text, m, kept, q))
    || (SpaceInFront(text, m, kept, p) && m.end < |text| && IsSentenceMark(text[m.end]))
  }

  /** What goes with one range: the last byte in front or none, and the byte behind or none. */
  function Taken(text: Text, p: Progress, m: Match): (taken: set<nat>)
    requires (forall k :: 0 <= k < |p.kept| ==> p.kept[k] < |text|) && m.start <= |text|
    ensures |taken| <= 2
  {
    var b, after := p.kept + Span(p.prev, m.start), TakeOut(text, p, m);
    (if |after.kept| < |b| then {b[|b| - 1]} else {}) + (if after.prev > m.end then {m.end} else {})
  }

  /** What goes with the k-th range. */
  function TakenWith(text: Text, ms: seq<Match>, k: nat): (taken: set<nat>)
    requires Strippable(text, ms) && k < |ms|
    ensures |taken| <= 2
  {
    Taken(text, Slots(text, ms[..k]), ms[k])
  }

  /** p went with some range, as a byte of its slot. */
  ghost predicate InSlot(text: Text, ms: seq<Match>, kept: seq<nat>, p: nat)
    requires Strippable(text, ms) && p < |text|
  {
    exists k :: 0 <= k < |ms| && p in TakenWith(text, ms, k) && SlotOf(text, ms[k], kept, p)
  }

  function Lengths(ms: seq<Match>): int {
    if ms == [] then 0 else Lengths(ms[..|ms| - 1]) + ms[|ms| - 1].end - ms[|ms| - 1].start
  }

  lemma SpanHas(lo: nat, hi: nat, q: nat)
    ensures q in Span(lo, hi) <==> lo <= q < hi
  {
    if lo <= q < hi { assert Span(lo, hi)[q - lo] == q; }
  }

  /** Only the last of increasing places is at or past it. */
  lemma DropLast(places: seq<nat>, bound: nat, q: nat)
    requires Increasing(places, bound) && places != []
    ensures var last := places[|places| - 1];
            && (q in places[..|places| - 1] <==> q in places && q != last)
            && (q > last ==> q !in places)
  {
    var n := |places| - 1;
    assert places == places[..n] + [places[n]];
  }

  lemma TakeOutIn(text: Text, p: Progress, m: Match, q: nat)
    requires Increasing(p.kept, p.prev) && p.prev <= m.start < m.end <= |text|
    ensures var after := TakeOut(text, p, m);
            && (q in after.kept ==> q in p.kept || p.prev <= q < m.start)
            && (q in p.kept || p.prev <= q < m.start ==>
                  q in after.kept || (q in Taken(text, p, m) && SlotOf(text, m, after.kept, q)))
            && (q == m.end && q < after.prev ==> q in Taken(text, p, m) && SlotOf(text, m, after.kept, q))
  {
    hide Span;
    var b := p.kept + Span(p.prev, m.start);
    SpanFollows(p.kept, p.prev, m.start);
    SpanHas(p.prev, m.start, q);
    assert q in p.kept || p.prev <= q < m.start ==> q < m.start by { Below(b, m.start, q); }
    var after := TakeOut(text, p, m);
    if b != [] {
      var last := b[|b| - 1];
      DropLast(b, m.start, q);
      forall r: nat | last < r < m.start ensures r !in after.kept { DropLast(b, m.start, r); }
      if text[last] == ' ' { assert SpaceInFront(text, m, after.kept, last); }
    }
  }

  lemma Below(places: seq<nat>, bound: nat, q: nat)
    requires Increasing(places, bound)
    ensures q in places ==> q < bound
  {
  }

  lemma TakeOutCosts(text: Text, p: Progress, m: Match)
    requires Increasing(p.kept, p.prev) && p.prev <= m.start < m.end <= |text|
    ensures var after := TakeOut(text, p, m);
            after.prev <= m.end + 1 && |after.kept| + 1 >= |p.kept| + (m.start - p.prev)
  {
  }

  lemma {:induction false} SlotsDrop(text: Text, ms: seq<Match>, p: nat)
    requires Strippable(text, ms) && p < Slots(text, ms).prev
    ensures p in Slots(text, ms).kept ==> !InRange(ms, p)
    ensures p !in Slots(text, ms).kept ==> InRange(ms, p) || InSlot(text, ms, Slots(text, ms).kept, p)
    decreases |ms|
  {
    hide TakeOut, Increasing, SlotOf, Taken, InSlot, InRange;
    if ms != [] {
      var n := |ms| - 1;
      var m, before := ms[n], Slots(text, ms[..n]);
      PrevIsBefore(text, ms, before);
      TakeOutIn(text, before, m, p);
      Below(before.kept, before.prev, p);
      StaysInRange(ms, p);
      LastInSlot(text, ms, p);
      if p < before.prev {
        SlotsDrop(text, ms[..n], p);
        StaysInSlot(text, ms, p);
      } else {
        NothingBehindPrev(text, ms[..n], before, p);
      }
    }
  }

  lemma LastInSlot(text: Text, ms: seq<Match>, p: nat)
    requires Strippable(text, ms) && ms != [] && p < |text|
    ensures var n := |ms| - 1;
            p in Taken(text, Slots(text, ms[..n]), ms[n]) && SlotOf(text, ms[n], Slots(text, ms).kept, p) ==>
              InSlot(text, ms, Slots(text, ms).kept, p)
  {
    hide Slots, SlotOf, Taken;
    assert TakenWith(text, ms, |ms| - 1) == Taken(text, Slots(text, ms[..|ms| - 1]), ms[|ms| - 1]);
  }

  lemma StaysInRange(ms: seq<Match>, p: nat)
    requires ms != []
    ensures InRange(ms, p) <==> InRange(ms[..|ms| - 1], p) || ms[|ms| - 1].start <= p < ms[|ms| - 1].end
  {
    var n := |ms| - 1;
    if InRange(ms[..n], p) {
      var k :| 0 <= k < n && ms[..n][k].start <= p < ms[..n][k].end;
      assert ms[k].start <= p < ms[k].end;
    }
    if k :| 0 <= k < |ms| && ms[k].start <= p < ms[k].end {
      if k < n { assert ms[..n][k].start <= p < ms[..n][k].end; }
    }
  }

  lemma RangesEndBeforePrev(text: Text, ms: seq<Match>, p: Progress, k: nat)
    requires Strippable(text, ms) && Follows(text, ms, p) && k < |ms|
    ensures ms[k].start < ms[k].end <= p.prev
  {
    assert k < |ms| - 1 ==> ms[k].end <= ms[|ms| - 1].start;
  }

  lemma NothingBehindPrev(text: Text, ms: seq<Match>, before: Progress, p: nat)
    requires Strippable(text, ms) && Follows(text, ms, before) && before.prev <= p
    ensures !InRange(ms, p)
  {
    forall k | 0 <= k < |ms| ensures ms[k].end <= p { RangesEndBeforePrev(text, ms, before, k); }
  }

  lemma StaysInSlot(text: Text, ms: seq<Match>, p: nat)
    requires Strippable(text, ms) && ms != [] && p < |text|
    ensures InSlot(text, ms[..|ms| - 1], Slots(text, ms[..|ms| - 1]).kept, p) ==> InSlot(text, ms, Slots(text, ms).kept, p)
  {
    hide Slots, SlotOf, TakenWith;
    var n := |ms| - 1;
    var kept := Slots(text, ms[..n]).kept;
    if InSlot(text, ms[..n], kept, p) {
      var k :| 0 <= k < n && p in TakenWith(text, ms[..n], k) && SlotOf(text, ms[..n][k], kept, p);
      StaysWith(text, ms, k, p);
    }
  }

  lemma StaysWith(text: Text, ms: seq<Match>, k: nat, p: nat)
    requires Strippable(text, ms) && k < |ms| - 1 && p < |text|
    requires p in TakenWith(text, ms[..|ms| - 1], k) && SlotOf(text, ms[k], Slots(text, ms[..|ms| - 1]).kept, p)
    ensures p in TakenWith(text, ms, k) && SlotOf(text, ms[k], Slots(text, ms).kept, p)
  {
    hide TakeOut, Taken, SlotOf, Slots;
    var n := |ms| - 1;
    var before := Slots(text, ms[..n]);
    PrevIsBefore(text, ms, before);
    assert ms[..n][..k] == ms[..k] && ms[..n][k] == ms[k];
    RangesEndBeforePrev(text, ms[..n], before, k);
    NoneComesBack(text, ms, ms[k].start);
    SlotStays(text, ms[k], before.kept, Slots(text, ms).kept, p);
  }

  /** A place before prev that has gone stays gone. */
  lemma NoneComesBack(text: Text, ms: seq<Match>, hi: nat)
    requires Strippable(text, ms) && ms != [] && hi <= Slots(text, ms[..|ms| - 1]).prev
    ensures forall q: nat :: q < hi && q !in Slots(text, ms[..|ms| - 1]).kept ==> q !in Slots(text, ms).kept
  {
    hide TakeOut, Taken, SlotOf;
    var n := |ms| - 1;
    var before := Slots(text, ms[..n]);
    PrevIsBefore(text, ms, before);
    forall q: nat | q < hi && q !in before.kept ensures q !in Slots(text, ms).kept { TakeOutIn(text, before, ms[n], q); }
  }

  /** A slot stays a slot when no place before the range comes back. */
  lemma SlotStays(text: Text, m: Match, kept: seq<nat>, later: seq<nat>, p: nat)
    requires p < |text| && SlotOf(text, m, kept, p)
    requires forall q: nat :: q < m.start && q !in kept ==> q !in later
    ensures SlotOf(text, m, later, p)
  {
    forall q: nat | SpaceInFront(text, m, kept, q) ensures SpaceInFront(text, m, later, q) {}
  }

  lemma {:induction false} SlotsCost(text: Text, ms: seq<Match>)
    requires Strippable(text, ms)
    ensures var p := Slots(text, ms); p.prev <= |p.kept| + Lengths(ms) + 2 * |ms|
    decreases |ms|
  {
    hide TakeOut, Increasing;
    if ms != [] {
      var n := |ms| - 1;
      var before := Slots(text, ms[..n]);
      SlotsCost(text, ms[..n]);
      PrevIsBefore(text, ms, before);
      TakeOutCosts(text, before, ms[n]);
    }
  }

  /** Stripping takes out the ranges and, with each of them, at most two bytes of its slot; and nothing
      else. */
  lemma StrippingTakesOnlySlots(text: Text, ms: seq<Match>)
    requires Strippable(text, ms)
    ensures var kept := Kept(text, ms);
            && (forall p: nat :: p < |text| && p in kept ==> !InRange(ms, p))
            && (forall p: nat :: p < |text| && p !in kept ==> InRange(ms, p) || InSlot(text, ms, kept, p))
            && (forall k :: 0 <= k < |ms| ==> |TakenWith(text, ms, k)| <= 2)
            && |text| <= |kept| + Lengths(ms) + 2 * |ms|
  {
    hide Slots, Follows, Increasing;
    var kept, done := Kept(text, ms), Slots(text, ms);
    SlotsCost(text, ms);
    forall p: nat | p < |text|
      ensures p in kept ==> !InRange(ms, p)
      ensures p !in kept ==> InRange(ms, p) || InSlot(text, ms, kept, p)
    {
      KeptAt(text, ms, p);
    }
  }

  lemma KeptAt(text: Text, ms: seq<Match>, p: nat)
    requires Strippable(text, ms) && p < |text|
    ensures var kept := Kept(text, ms);
            && (p in kept ==> !InRange(ms, p))
            && (p !in kept ==> InRange(ms, p) || InSlot(text, ms, kept, p))
  {
    hide InRange, Slots, SlotOf;
    var kept, done := Kept(text, ms), Slots(text, ms);
    InKept(text, ms, p);
    if p < done.prev {
      SlotsDrop(text, ms, p);
      KeptInSlot(text, ms, p);
    } else {
      NothingBehindPrev(text, ms, done, p);
    }
  }

  lemma InKept(text: Text, ms: seq<Match>, p: nat)
    requires Strippable(text, ms) && p < |text|
    ensures p in Kept(text, ms) <==> p in Slots(text, ms).kept || p >= Slots(text, ms).prev
  {
    hide Slots;
    var prev := Slots(text, ms).prev;
    if p >= prev { assert Span(prev, |text|)[p - prev] == p; }
  }

  lemma KeptInSlot(text: Text, ms: seq<Match>, p: nat)
    requires Strippable(text, ms) && p < |text|
    ensures InSlot(text, ms, Slots(text, ms).kept, p) ==> InSlot(text, ms, Kept(text, ms), p)
  {
    hide Slots, Increasing, TakenWith;
    var done := Slots(text, ms);
    if InSlot(text, ms, done.kept, p) {
      var k :| 0 <= k < |ms| && p in TakenWith(text, ms, k) && SlotOf(text, ms[k], done.kept, p);
      RangesEndBeforePrev(text, ms, done, k);
      forall q: nat | q < ms[k].start && q !in done.kept ensures q !in Kept(text, ms) { InKept(text, ms, q); }
      SlotStays(text, ms[k], done.kept, Kept(text, ms), p);
    }
  }

  predicate Gone(p: Progress, q: int) { q < p.prev && (q >= 0 ==> q !in p.kept) }

  /** The slot of a range does go: a mark behind it always, the space in front with the mark, and one
      of two spaces. */
  predicate SlotGoes(text: Text, m: Match, p: Progress)
    requires m.start <= |text| && m.end < |text|
  {
    var space := m.start > 0 && text[m.start - 1] == ' ';
    && (IsSentenceMark(text[m.end]) ==> Gone(p, m.end) && (space ==> Gone(p, m.start - 1)))
    && (text[m.end] == ' ' && space ==> Gone(p, m.end) || Gone(p, m.start - 1))
  }

  lemma TakeOutTakesTheSlot(text: Text, ms: seq<Match>, p: Progress)
    requires Strippable(text, ms) && ms != [] && Follows(text, ms[..|ms| - 1], p) && Gone(p, p.prev - 1)
    ensures var m := ms[|ms| - 1];
            var after := TakeOut(text, p, m);
            Gone(after, after.prev - 1) && (m.end < |text| ==> SlotGoes(text, m, after))
  {
    hide Span;
    var m := ms[|ms| - 1];
    PrevIsBefore(text, ms, p);
    var b := p.kept + Span(p.prev, m.start);
    SpanFollows(p.kept, p.prev, m.start);
    Below(b, m.start, m.end);
    Below(b, m.start, m.end - 1);
    if m.start > 0 {
      LastPlace(p, m.start);
      if b != [] { DropLast(b, m.start, m.start - 1); }
    }
    if b != [] {
      DropLast(b, m.start, m.end);
      DropLast(b, m.start, m.end - 1);
    }
  }

  /** The byte before start is the last place, unless it has gone already. */
  lemma LastPlace(p: Progress, start: nat)
    requires Increasing(p.kept, p.prev) && p.prev <= start && start > 0 && Gone(p, p.prev - 1)
    ensures var b := p.kept + Span(p.prev, start);
            if p.prev == start then start - 1 !in b else b != [] && b[|b| - 1] == start - 1
  {
    SpanHas(p.prev, start, start - 1);
  }

  lemma {:induction false} EverySlotGoes(text: Text, ms: seq<Match>, k: nat)
    requires Strippable(text, ms)
    ensures var p := Slots(text, ms);
            Gone(p, p.prev - 1) && (k < |ms| && ms[k].end < |text| ==> SlotGoes(text, ms[k], p))
    decreases |ms|
  {
    hide TakeOut, Increasing;
    if ms != [] {
      var n := |ms| - 1;
      var before, after := Slots(text, ms[..n]), Slots(text, ms);
      EverySlotGoes(text, ms[..n], k);
      TakeOutTakesTheSlot(text, ms, before);
      PrevIsBefore(text, ms, before);
      forall q: int | Gone(before, q) ensures Gone(after, q) {
        if q >= 0 { TakeOutIn(text, before, ms[n], q); }
      }
      assert k < n ==> ms[..n][k] == ms[k];
    }
  }

  /** What is kept of the slots of the ranges: no mark, no space in front of one, and no two spaces. */
  lemma StrippingTakesTheSlots(text: Text, ms: seq<Match>, k: nat)
    requires Strippable(text, ms) && k < |ms| && ms[k].end < |text|
    ensures var kept, m := Kept(text, ms), ms[k];
            var space := m.start > 0 && text[m.start - 1] == ' ';
            && (IsSentenceMark(text[m.end]) ==> m.end !in kept && (space ==> m.start - 1 !in kept))
            && (text[m.end] == ' ' && space ==> m.end !in kept || m.start - 1 !in kept)
  {
    hide Slots, Kept, Increasing;
    EverySlotGoes(text, ms, k);
    InKept(text, ms, ms[k].end);
    if ms[k].start > 0 { InKept(text, ms, ms[k].start - 1); }
  }

  /** And trimming takes the white space off the two ends of what is left: the result is the kept bytes
      from lo to hi, in their order, and begins and ends with none. */
  lemma StrippedIsAStretch(text: Text, ms: seq<Match>) returns (lo: nat, hi: nat)
    requires Strippable(text, ms)
    ensures var kept := Kept(text, ms);
            && lo <= hi <= |kept| && Stripped(text, ms) == Pick(text, kept[lo..hi])
            && AllSpace(Pick(text, kept[..lo])) && AllSpace(Pick(text, kept[hi..]))
    ensures var left := Stripped(text, ms);
            left != "" ==> !IsSpaceRune(DecodeRune(left).rune) && !IsSpaceRune(DecodeLastRune(left).rune)
  {
    hide Kept, TrimSpace, AllSpace, Pick;
    var kept := Kept(text, ms);
    lo, hi := TrimSpaceSplits(Pick(text, kept));
    PickSlice(text, kept, lo, hi);
    PickSlice(text, kept, 0, lo);
    PickSlice(text, kept, hi, |kept|);
    assert kept[0..lo] == kept[..lo] && kept[hi..|kept|] == kept[hi..];
    var all := Pick(text, kept);
    assert all[0..lo] == all[..lo] && all[hi..|kept|] == all[hi..];
  }

  lemma PickSlice(text: Text, places: seq<nat>, lo: nat, hi: nat)
    requires (forall k :: 0 <= k < |places| ==> places[k] < |text|) && lo <= hi <= |places|
    ensures |Pick(text, places)| == |places| && Pick(text, places)[lo..hi] == Pick(text, places[lo..hi])
  {
  }

  /** ms is ranges in order, and stripped the text without them. */
  ghost predicate IsStripped(text: Text, ranges: seq<Match>, stripped: Text, ms: seq<Match>) {
    Permuted(ranges, ms) && Strippable(text, ms) && stripped == Stripped(text, ms)
  }

  method StripRanges(text: Text, ranges: seq<Match>) returns (stripped: Text)
    requires Apart(ranges)
    requires forall m :: m in ranges ==> m.start < m.end <= |text| && 'a' <= text[m.start] <= 'z'
    ensures exists ms :: IsStripped(text, ranges, stripped, ms)
  {
    hide Slots, Pick, Span, SortedByStart, Strippable;
    var sorted := new Match[|ranges|](i requires 0 <= i < |ranges| => ranges[i]);
    assert sorted[..] == ranges;
    SortByStart(sorted);
    ghost var ms := sorted[..];
    OrderedIsStrippable(text, ranges, ms);
    var b, prev := TakeOutAll(text, sorted[..]);
    PickMore(text, Slots(text, ms).kept, prev, |text|);
    assert text[prev..|text|] == text[prev..];
    stripped := TrimSpace(b + text[prev..]);
    assert IsStripped(text, ranges, stripped, ms);
  }

  /** The pass over the ordered ranges. */
  method TakeOutAll(text: Text, ms: seq<Match>) returns (b: Text, prev: nat)
    requires Strippable(text, ms)
    ensures var p := Slots(text, ms);
            prev == p.prev && prev <= |text| && b == Pick(text, p.kept)
  {
    hide TakeOut, Span, Pick;
    b, prev := "", 0;
    assert Pick(text, []) == "" && ms[..0] == [];
    for k := 0 to |ms|
      invariant prev == Slots(text, ms[..k]).prev && b == Pick(text, Slots(text, ms[..k]).kept)
    {
      assert ms[..k + 1][..k] == ms[..k] && ms[..k + 1][k] == ms[k];
      ghost var p := Slots(text, ms[..k]);
      PrevIsBefore(text, ms[..k + 1], p);
      b, prev := TakeOutOf(text, b, prev, ms[k], p.kept);
    }
    assert ms[..|ms|] == ms;
  }

  method TakeOutOf(text: Text, b: Text, prev: nat, r: Match, ghost kept: seq<nat>) returns (rest: Text, next: nat)
    requires Increasing(kept, prev) && prev <= r.start < r.end <= |text| && b == Pick(text, kept)
    ensures var p := TakeOut(text, Progress(kept, prev), r);
            (forall k :: 0 <= k < |p.kept| ==> p.kept[k] < |text|) && rest == Pick(text, p.kept) && next == p.prev
  {
    hide Span;
    ghost var places := kept + Span(prev, r.start);
    SpanFollows(kept, prev, r.start);
    PickMore(text, kept, prev, r.start);
    rest := b + text[prev..r.start];
    assert rest == Pick(text, places);
    next := r.end;
    if next < |text| && IsSentenceMark(text[next]) {
      if |rest| > 0 && rest[|rest| - 1] == ' ' {
        rest := rest[..|rest| - 1];
        assert rest == Pick(text, places[..|places| - 1]);
      }
      next := next + 1;
    } else if next < |text| && text[next] == ' ' && |rest| > 0 && rest[|rest| - 1] == ' ' {
      next := next + 1;
    }
  }

  lemma PickMore(text: Text, kept: seq<nat>, lo: nat, hi: nat)
    requires (forall k :: 0 <= k < |kept| ==> kept[k] < |text|) && lo <= hi <= |text|
    ensures Pick(text, kept + Span(lo, hi)) == Pick(text, kept) + text[lo..hi]
  {
  }

  lemma OrderedIsStrippable(text: Text, ranges: seq<Match>, ms: seq<Match>)
    requires Reordered(ranges, ms) && SortedByStart(ms) && Apart(ranges)
    requires forall m :: m in ranges ==> m.start < m.end <= |text| && 'a' <= text[m.start] <= 'z'
    ensures Strippable(text, ms)
  {
    forall k | 0 <= k < |ms| ensures ms[k] in ranges {
      assert ms[k] in multiset(ms);
      assert ms[k] in multiset(ranges);
    }
    SortedApartIsInSequence(ms);
  }

  // ---------- the whole ----------

  /** ms lists the occurrences that fire, each once and from left to right. */
  ghost predicate Enumerates(a: Alphabet, catalogue: seq<MagicKeyword>, text: Text, mask: seq<bool>, ms: seq<Match>)
    requires |mask| == |text|
  {
    Strippable(text, ms) && forall m: Match :: m in ms <==> IsFiring(a, catalogue, text, mask, m)
  }

  /** There is one such list. */
  lemma EnumerationIsUnique(a: Alphabet, catalogue: seq<MagicKeyword>, text: Text, mask: seq<bool>, ms: seq<Match>, ns: seq<Match>)
    requires |mask| == |text| && Enumerates(a, catalogue, text, mask, ms) && Enumerates(a, catalogue, text, mask, ns)
    ensures ms == ns
  {
    hide IsFiring;
    assert forall m: Match :: m in ms <==> m in ns;
    SameMembersSameList(text, ms, ns);
  }

  lemma {:induction false} SameMembersSameList(text: Text, ms: seq<Match>, ns: seq<Match>)
    requires Strippable(text, ms) && Strippable(text, ns) && forall m: Match :: m in ms <==> m in ns
    ensures ms == ns
    decreases |ms|
  {
    if ms == [] {
      HasMember(ns);
    } else {
      assert ms[0] in ns;
      assert ns != [] && ns[0] in ms;
      FirstIsLeast(text, ms, ns[0]);
      FirstIsLeast(text, ns, ms[0]);
      assert ms[0] == ns[0];
      forall m: Match ensures m in ms[1..] <==> m in ns[1..] {
        InTail(text, ms, m);
        InTail(text, ns, m);
      }
      SameMembersSameList(text, ms[1..], ns[1..]);
      assert ms == [ms[0]] + ms[1..] && ns == [ns[0]] + ns[1..];
    }
  }

  lemma HasMember(ms: seq<Match>)
    ensures ms != [] ==> exists m: Match :: m in ms
  {
    if ms != [] { assert ms[0] in ms; }
  }

  lemma FirstIsLeast(text: Text, ms: seq<Match>, m: Match)
    requires Strippable(text, ms) && m in ms
    ensures m == ms[0] || ms[0].start < m.start
  {
    var k :| 0 <= k < |ms| && ms[k] == m;
    assert k > 0 ==> ms[0].end <= ms[k].start;
  }

  lemma InTail(text: Text, ms: seq<Match>, m: Match)
    requires Strippable(text, ms) && ms != []
    ensures m in ms[1..] <==> m in ms && m != ms[0]
  {
    assert ms == [ms[0]] + ms[1..];
    forall k | 0 < k < |ms| ensures ms[k] != ms[0] { assert ms[0].end <= ms[k].start; }
  }

  /** The occurrences of one word come from left to right. */
  lemma {:induction false} FiringsOfIncrease(a: Alphabet, text: Text, mask: seq<bool>, kw: MagicKeyword, i: nat)
    requires |mask| == |text| && i <= |text|
    ensures forall k, l :: 0 <= k < l < |FiringsOf(a, text, mask, kw, i)| ==>
              FiringsOf(a, text, mask, kw, i)[k].start < FiringsOf(a, text, mask, kw, i)[l].start
    ensures forall k :: 0 <= k < |FiringsOf(a, text, mask, kw, i)| ==>
              FiringsOf(a, text, mask, kw, i)[k].start >= i && FiringsOf(a, text, mask, kw, i)[k].kw == kw
    decreases |text| - i
  {
    hide FiresAt;
    if i < |text| { FiringsOfIncrease(a, text, mask, kw, i + 1); }
  }

  predicate AllDiffer(ms: seq<Match>) { forall k, l :: 0 <= k < l < |ms| ==> ms[k] != ms[l] }

  lemma {:induction false} CollectedDiffer(a: Alphabet, catalogue: seq<MagicKeyword>, text: Text, mask: seq<bool>)
    requires |mask| == |text| && ValidCatalogue(catalogue)
    ensures AllDiffer(Collected(a, catalogue, text, mask))
  {
    hide FiresAt, FiringsOf, IsFiring;
    if catalogue != [] {
      var n := |catalogue| - 1;
      var front, last := Collected(a, catalogue[..n], text, mask), FiringsOf(a, text, mask, catalogue[n], 0);
      CollectedDiffer(a, catalogue[..n], text, mask);
      FiringsOfIncrease(a, text, mask, catalogue[n], 0);
      forall k | 0 <= k < |front| ensures front[k].kw != catalogue[n] {
        assert front[k] in front;
        CollectedExactlyWhen(a, catalogue[..n], text, mask, front[k]);
        FiringIsOfTheCatalogue(a, catalogue[..n], text, mask, front[k]);
        var j :| 0 <= j < n && catalogue[..n][j] == front[k].kw;
        assert catalogue[j].word != catalogue[n].word;
      }
      var all := Collected(a, catalogue, text, mask);
      assert all == front + last;
      forall k, l | 0 <= k < l < |all| ensures all[k] != all[l] {
        if k < |front| <= l { assert all[k].kw != all[l].kw; }
      }
    }
  }

  lemma FiringIsOfTheCatalogue(a: Alphabet, catalogue: seq<MagicKeyword>, text: Text, mask: seq<bool>, m: Match)
    requires |mask| == |text| && ValidCatalogue(catalogue) && IsFiring(a, catalogue, text, mask, m)
    ensures m.kw in catalogue && m.start < m.end <= |text| && 'a' <= text[m.start] <= 'z'
  {
    LetterOfAWord(text, m.kw.word, m.start, m.start);
  }

  lemma CollectedIsApart(a: Alphabet, catalogue: seq<MagicKeyword>, text: Text, mask: seq<bool>)
    requires a.Sound() && |mask| == |text| && ValidCatalogue(catalogue)
    ensures Apart(Collected(a, catalogue, text, mask))
  {
    hide FiresAt, IsFiring, Collected;
    var all := Collected(a, catalogue, text, mask);
    CollectedDiffer(a, catalogue, text, mask);
    forall k, l | 0 <= k < l < |all| ensures Disjoint(all[k], all[l]) {
      assert all[k] in all && all[l] in all && all[k] != all[l];
      CollectedExactlyWhen(a, catalogue, text, mask, all[k]);
      CollectedExactlyWhen(a, catalogue, text, mask, all[l]);
      FiringsAreDisjoint(a, catalogue, text, mask, all[k], all[l]);
    }
  }

  /** The message without the occurrences that fire; unchanged when none does. */
  ghost predicate IsOutcome(a: Alphabet, catalogue: seq<MagicKeyword>, message: Text, stripped: Text, ms: seq<Match>) {
    && Enumerates(a, catalogue, message, NonProse(message), ms)
    && stripped == if ms == [] then message else Stripped(message, ms)
  }

  method ParseMagicKeywords(a: Alphabet, catalogue: seq<MagicKeyword>, message: Text)
      returns (stripped: Text, fired: seq<MagicKeyword>)
    requires a.Sound() && ValidCatalogue(catalogue)
    ensures fired == FiredWords(a, catalogue, message, NonProse(message))
    ensures exists ms :: IsOutcome(a, catalogue, message, stripped, ms)
  {
    hide NonProse, IsFiring, FiringsOf, Apart, Strippable;
    var masked := MaskNonProse(message);
    ghost var mask := NonProse(message);
    var ranges: seq<Match> := [];
    var seen: set<Text> := {};
    fired := [];
    for k := 0 to |catalogue|
      invariant masked[..] == mask
      invariant ranges == Collected(a, catalogue[..k], message, mask)
      invariant fired == FiredWords(a, catalogue[..k], message, mask)
      invariant forall w :: w in seen ==> exists l :: 0 <= l < k && catalogue[l].word == w
    {
      var kw := catalogue[k];
      var found := SearchWord(a, message, masked, kw);
      assert catalogue[..k + 1][..k] == catalogue[..k] && catalogue[..k + 1][k] == kw;
      ranges := ranges + found;
      if found != [] && kw.word !in seen {
        seen := seen + {kw.word};
        fired := fired + [kw];
      }
    }
    assert catalogue[..|catalogue|] == catalogue;
    RangesFire(a, catalogue, message, mask, ranges);
    if ranges == [] {
      EnumeratesReordered(a, catalogue, message, mask, ranges, []);
      assert IsOutcome(a, catalogue, message, message, []);
      return message, [];
    }
    stripped := StripRanges(message, ranges);
    ghost var ms :| IsStripped(message, ranges, stripped, ms);
    EnumeratesReordered(a, catalogue, message, mask, ranges, ms);
    assert IsOutcome(a, catalogue, message, stripped, ms);
  }

  lemma RangesFire(a: Alphabet, catalogue: seq<MagicKeyword>, text: Text, mask: seq<bool>, ranges: seq<Match>)
    requires a.Sound() && |mask| == |text| && ValidCatalogue(catalogue) && ranges == Collected(a, catalogue, text, mask)
    ensures Apart(ranges)
    ensures forall m :: m in ranges ==> m.start < m.end <= |text| && 'a' <= text[m.start] <= 'z'
    ensures ranges == [] ==> FiredWords(a, catalogue, text, mask) == []
  {
    hide IsFiring, FiringsOf;
    CollectedIsApart(a, catalogue, text, mask);
    forall m | m in ranges ensures m.start < m.end <= |text| && 'a' <= text[m.start] <= 'z' {
      CollectedExactlyWhen(a, catalogue, text, mask, m);
      FiringIsOfTheCatalogue(a, catalogue, text, mask, m);
    }
    NoneFired(a, catalogue, text, mask);
  }

  lemma {:induction false} NoneFired(a: Alphabet, catalogue: seq<MagicKeyword>, text: Text, mask: seq<bool>)
    requires |mask| == |text|
    ensures Collected(a, catalogue, text, mask) == [] <==> FiredWords(a, catalogue, text, mask) == []
  {
    hide FiringsOf;
    if catalogue != [] { NoneFired(a, catalogue[..|catalogue| - 1], text, mask); }
  }

  lemma EnumeratesReordered(a: Alphabet, catalogue: seq<MagicKeyword>, text: Text, mask: seq<bool>, ranges: seq<Match>, ms: seq<Match>)
    requires a.Sound() && |mask| == |text| && ValidCatalogue(catalogue) && ranges == Collected(a, catalogue, text, mask)
    requires Permuted(ranges, ms) && (ms != [] ==> Strippable(text, ms))
    ensures Enumerates(a, catalogue, text, mask, ms)
  {
    hide IsFiring, Collected;
    forall m: Match ensures m in ms <==> IsFiring(a, catalogue, text, mask, m) {
      CollectedExactlyWhen(a, catalogue, text, mask, m);
      assert m in ms <==> m in multiset(ms);
      assert m in ranges <==> m in multiset(ranges);
    }
  }
}
