/** Go strings as byte strings, and UTF-8 (sections 3 and 4 of RFC 3629) as Go's unicode/utf8
    decodes it.  A character of a Text stands for one byte, U+00E2 for byte 0xE2; a character past
    U+00FF is read as a byte that encodes nothing. */
module Utf8 {
  import Space
  import opened Wrappers

  type Byte = char
  type Text = seq<Byte>
  type Rune = int

  /** What a decoder reports for bytes that encode nothing (U+FFFD). */
  const RUNE_ERROR: Rune := 0xFFFD

  predicate IsTail(b: Byte) { '\U{80}' <= b <= '\U{BF}' }

  /** The range the second byte must lie in, by the first byte; empty when none may follow. */
  predicate SecondFits(first: Byte, second: Byte) {
    if first == '\U{E0}' then '\U{A0}' <= second <= '\U{BF}'
    else if first == '\U{ED}' then '\U{80}' <= second <= '\U{9F}'
    else if first == '\U{F0}' then '\U{90}' <= second <= '\U{BF}'
    else if first == '\U{F4}' then '\U{80}' <= second <= '\U{8F}'
    else IsTail(second)
  }

  /** How many bytes the first byte announces: 0 when it cannot begin an encoding. */
  function Announced(first: Byte): nat {
    if first < '\U{80}' then 1
    else if '\U{C2}' <= first <= '\U{DF}' then 2
    else if '\U{E0}' <= first <= '\U{EF}' then 3
    else if '\U{F0}' <= first <= '\U{F4}' then 4
    else 0
  }

  /** The length of the encoding s begins with, 0 when it begins with none. */
  function Width(s: Text): (w: nat)
    ensures w <= |s| && w <= 4
    ensures w > 0 ==> !IsTail(s[0]) && forall k :: 1 <= k < w ==> IsTail(s[k])
  {
    if s == "" then 0
    else
      var w := Announced(s[0]);
      if w <= |s| && (w >= 2 ==> SecondFits(s[0], s[1])) && (w >= 3 ==> IsTail(s[2])) && (w >= 4 ==> IsTail(s[3]))
      then w
      else 0
  }

  /** The code point in the first w bytes of s. */
  function CodePoint(s: Text, w: nat): Rune
    requires 1 <= w <= 4 && w <= |s|
  {
    var b := seq(w, k requires 0 <= k < w => s[k] as int);
    if w == 1 then b[0]
    else if w == 2 then (b[0] % 0x20) * 0x40 + b[1] % 0x40
    else if w == 3 then (b[0] % 0x10) * 0x1000 + (b[1] % 0x40) * 0x40 + b[2] % 0x40
    else (b[0] % 0x08) * 0x40000 + (b[1] % 0x40) * 0x1000 + (b[2] % 0x40) * 0x40 + b[3] % 0x40
  }

  datatype Decoded = Decoded(rune: Rune, size: nat)

  /** utf8.DecodeRuneInString. */
  function DecodeRune(s: Text): (d: Decoded)
    ensures d.size <= |s| && (s != "" ==> d.size > 0)
    ensures s != "" && s[0] < '\U{80}' ==> d == Decoded(s[0] as int, 1)
  {
    if s == "" then Decoded(RUNE_ERROR, 0)
    else if Width(s) == 0 then Decoded(RUNE_ERROR, 1)
    else Decoded(CodePoint(s, Width(s)), Width(s))
  }

  /** Where the last rune may begin: the nearest byte that is no tail byte among the last four. */
  function LastStart(s: Text, back: nat): (start: nat)
    requires 1 <= back <= 4 && back <= |s|
    ensures start < |s|
    decreases 4 - back
  {
    if back < 4 && back < |s| && IsTail(s[|s| - back]) then LastStart(s, back + 1) else |s| - back
  }

  /** utf8.DecodeLastRuneInString. */
  function DecodeLastRune(s: Text): (d: Decoded)
    ensures d.size <= |s| && (s != "" ==> d.size > 0)
    ensures s != "" && s[|s| - 1] < '\U{80}' ==> d == Decoded(s[|s| - 1] as int, 1)
  {
    if s == "" then Decoded(RUNE_ERROR, 0)
    else
      var start := LastStart(s, 1);
      var d := DecodeRune(s[start..]);
      if start + d.size == |s| then d else Decoded(RUNE_ERROR, 1)
  }

  // ---------- the encoding ----------

  /** The code points that have an encoding: all but the surrogates. */
  predicate IsScalar(r: Rune) { 0 <= r < 0xD800 || 0xE000 <= r < 0x11_0000 }

  function ByteOf(n: int): Byte
    requires 0 <= n < 0x100
  {
    n as char
  }

  /** The bytes of a code point. */
  function Encode(r: Rune): (s: Text)
    requires IsScalar(r)
    ensures 1 <= |s| <= 4
  {
    if r < 0x80 then [ByteOf(r)]
    else if r < 0x800 then [ByteOf(0xC0 + r / 0x40), ByteOf(0x80 + r % 0x40)]
    else if r < 0x1_0000 then [ByteOf(0xE0 + r / 0x1000), ByteOf(0x80 + r / 0x40 % 0x40), ByteOf(0x80 + r % 0x40)]
    else [ByteOf(0xF0 + r / 0x4_0000), ByteOf(0x80 + r / 0x1000 % 0x40), ByteOf(0x80 + r / 0x40 % 0x40), ByteOf(0x80 + r % 0x40)]
  }

  /** Whatever follows it, an encoding is decoded to its code point, */
  lemma EncodedIsDecoded(r: Rune, rest: Text)
    requires IsScalar(r)
    ensures DecodeRune(Encode(r) + rest) == Decoded(r, |Encode(r)|)
  {
    var s := Encode(r);
    DecodesItsOwn(r);
    WidthOfPrefix(s, rest);
  }

  lemma DecodesItsOwn(r: Rune)
    requires IsScalar(r)
    ensures Width(Encode(r)) == |Encode(r)| && DecodeRune(Encode(r)) == Decoded(r, |Encode(r)|)
  {
    hide CodePoint, Width, Encode;
    if r < 0x80 { OwnByte(r); } else if r < 0x800 { OwnTwo(r); } else if r < 0x1_0000 { OwnThree(r); } else { OwnFour(r); }
  }

  lemma OwnByte(r: Rune)
    requires 0 <= r < 0x80
    ensures |Encode(r)| == Width(Encode(r)) == 1 && CodePoint(Encode(r), 1) == r
  {
  }

  lemma OwnTwo(r: Rune)
    requires 0x80 <= r < 0x800
    ensures |Encode(r)| == Width(Encode(r)) == 2 && CodePoint(Encode(r), 2) == r
  {
    var s := Encode(r);
    hide CodePoint;
    var a, b := r / 0x40, r % 0x40;
    assert s[0] as int == 0xC0 + a && s[1] as int == 0x80 + b && 2 <= a < 0x20;
    PointOf(s, 2);
    assert s[0] as int % 0x20 == a && s[1] as int % 0x40 == b;
  }

  lemma OwnThree(r: Rune)
    requires 0x800 <= r < 0x1_0000 && IsScalar(r)
    ensures |Encode(r)| == Width(Encode(r)) == 3 && CodePoint(Encode(r), 3) == r
  {
    var s := Encode(r);
    hide CodePoint, Width;
    var a, b, c := r / 0x1000, r / 0x40 % 0x40, r % 0x40;
    InBase64(r);
    assert s[0] as int == 0xE0 + a && s[1] as int == 0x80 + b && s[2] as int == 0x80 + c && |s| == 3;
    ThreeAreWide(s, a, b, c);
    PointOf(s, 3);
    assert s[0] as int % 0x10 == a && s[1] as int % 0x40 == b && s[2] as int % 0x40 == c;
  }

  lemma ThreeAreWide(s: Text, a: nat, b: nat, c: nat)
    requires |s| == 3 && a < 0x10 && b < 0x40 && c < 0x40
    requires s[0] as int == 0xE0 + a && s[1] as int == 0x80 + b && s[2] as int == 0x80 + c
    requires 0x800 <= a * 0x1000 + b * 0x40 + c && IsScalar(a * 0x1000 + b * 0x40 + c)
    ensures Width(s) == 3
  {
  }

  lemma OwnFour(r: Rune)
    requires 0x1_0000 <= r < 0x11_0000
    ensures |Encode(r)| == Width(Encode(r)) == 4 && CodePoint(Encode(r), 4) == r
  {
    var s := Encode(r);
    hide CodePoint, Width;
    var a, b, c, d := r / 0x4_0000, r / 0x1000 % 0x40, r / 0x40 % 0x40, r % 0x40;
    InBase64(r);
    assert s[0] as int == 0xF0 + a && s[1] as int == 0x80 + b && s[2] as int == 0x80 + c && s[3] as int == 0x80 + d && |s| == 4;
    FourAreWide(s, a, b, c, d);
    PointOf(s, 4);
    assert s[0] as int % 0x08 == a && s[1] as int % 0x40 == b && s[2] as int % 0x40 == c && s[3] as int % 0x40 == d;
  }

  lemma FourAreWide(s: Text, a: nat, b: nat, c: nat, d: nat)
    requires |s| == 4 && a < 0x08 && b < 0x40 && c < 0x40 && d < 0x40
    requires s[0] as int == 0xF0 + a && s[1] as int == 0x80 + b && s[2] as int == 0x80 + c && s[3] as int == 0x80 + d
    requires 0x1_0000 <= a * 0x4_0000 + b * 0x1000 + c * 0x40 + d < 0x11_0000
    ensures Width(s) == 4
  {
  }

  lemma InBase64(r: nat)
    ensures r == r / 0x40 * 0x40 + r % 0x40
    ensures r / 0x40 == r / 0x1000 * 0x40 + r / 0x40 % 0x40
    ensures r / 0x1000 == r / 0x4_0000 * 0x40 + r / 0x1000 % 0x40
  {
  }

  /** The payload bits of the bytes, as one number. */
  lemma PointOf(s: Text, w: nat)
    requires 1 <= w <= 4 && w <= |s|
    ensures w == 1 ==> CodePoint(s, w) == s[0] as int
    ensures w == 2 ==> CodePoint(s, w) == s[0] as int % 0x20 * 0x40 + s[1] as int % 0x40
    ensures w == 3 ==> CodePoint(s, w) == s[0] as int % 0x10 * 0x1000 + s[1] as int % 0x40 * 0x40 + s[2] as int % 0x40
    ensures w == 4 ==> CodePoint(s, w) == s[0] as int % 0x08 * 0x4_0000 + s[1] as int % 0x40 * 0x1000
                                          + s[2] as int % 0x40 * 0x40 + s[3] as int % 0x40
  {
  }

  /** and nothing else is: bytes decode to a code point exactly when they begin with its encoding. */
  lemma DecodedIsEncoded(s: Text)
    requires Width(s) > 0
    ensures var r := CodePoint(s, Width(s)); IsScalar(r) && Encode(r) == s[..Width(s)]
  {
    hide CodePoint, Encode;
    var w := Width(s);
    PointOf(s, w);
    if w == 1 { OneByte(s); } else if w == 2 { TwoBytes(s); } else if w == 3 { ThreeBytes(s); } else { FourBytes(s); }
  }

  lemma OneByte(s: Text)
    requires Width(s) == 1
    ensures IsScalar(s[0] as int) && Encode(s[0] as int) == s[..1]
  {
  }

  lemma TwoBytes(s: Text)
    requires Width(s) == 2
    ensures var r := s[0] as int % 0x20 * 0x40 + s[1] as int % 0x40;
            IsScalar(r) && Encode(r) == s[..2]
  {
    var a, b := s[0] as int % 0x20, s[1] as int % 0x40;
    assert s[0] as int == 0xC0 + a && s[1] as int == 0x80 + b;
    assert (a * 0x40 + b) / 0x40 == a && (a * 0x40 + b) % 0x40 == b;
  }

  lemma ThreeBytes(s: Text)
    requires Width(s) == 3
    ensures var r := s[0] as int % 0x10 * 0x1000 + s[1] as int % 0x40 * 0x40 + s[2] as int % 0x40;
            IsScalar(r) && Encode(r) == s[..3]
  {
    var a, b, c := s[0] as int % 0x10, s[1] as int % 0x40, s[2] as int % 0x40;
    var r := a * 0x1000 + b * 0x40 + c;
    assert s[0] as int == 0xE0 + a && s[1] as int == 0x80 + b && s[2] as int == 0x80 + c;
    assert r / 0x1000 == a && r / 0x40 == a * 0x40 + b && r % 0x40 == c;
    assert r / 0x40 % 0x40 == b;
    assert 0x800 <= r < 0x1_0000 && IsScalar(r);
  }

  lemma FourBytes(s: Text)
    requires Width(s) == 4
    ensures var r := s[0] as int % 0x08 * 0x4_0000 + s[1] as int % 0x40 * 0x1000 + s[2] as int % 0x40 * 0x40 + s[3] as int % 0x40;
            IsScalar(r) && Encode(r) == s[..4]
  {
    hide Encode;
    var a, b, c, d := s[0] as int % 0x08, s[1] as int % 0x40, s[2] as int % 0x40, s[3] as int % 0x40;
    assert s[0] as int == 0xF0 + a && s[1] as int == 0x80 + b && s[2] as int == 0x80 + c && s[3] as int == 0x80 + d;
    FourDigits(a, b, c, d);
  }

  lemma FourDigits(a: nat, b: nat, c: nat, d: nat)
    requires a < 0x08 && b < 0x40 && c < 0x40 && d < 0x40
    requires 0x1_0000 <= a * 0x4_0000 + b * 0x1000 + c * 0x40 + d < 0x11_0000
    ensures Encode(a * 0x4_0000 + b * 0x1000 + c * 0x40 + d)
         == [ByteOf(0xF0 + a), ByteOf(0x80 + b), ByteOf(0x80 + c), ByteOf(0x80 + d)]
  {
    var r := a * 0x4_0000 + b * 0x1000 + c * 0x40 + d;
    assert r / 0x4_0000 == a && r / 0x1000 == a * 0x40 + b && r / 0x40 == a * 0x1000 + b * 0x40 + c && r % 0x40 == d;
    assert r / 0x1000 % 0x40 == b && r / 0x40 % 0x40 == c;
  }

  /** The same from the back. */
  lemma EncodedIsDecodedLast(r: Rune, before: Text)
    requires IsScalar(r)
    ensures DecodeLastRune(before + Encode(r)) == Decoded(r, |Encode(r)|)
  {
    hide DecodeRune, Encode;
    var (s, w) := (before + Encode(r), |Encode(r)|);
    DecodesItsOwn(r);
    StartIsFound(s, w, 1);
    assert s[|before|..] == Encode(r);
  }

  lemma {:induction false} StartIsFound(s: Text, w: nat, back: nat)
    requires 1 <= back <= w <= 4 && w <= |s| && !IsTail(s[|s| - w]) && forall k :: |s| - w < k < |s| ==> IsTail(s[k])
    ensures LastStart(s, back) == |s| - w
    decreases w - back
  {
    if back < w { StartIsFound(s, w, back + 1); }
  }

  // ---------- well-formed text ----------

  predicate WellFormed(s: Text) { s == "" || (Width(s) > 0 && WellFormed(s[Width(s)..])) }

  /** A prefix is well-formed exactly when it does not end inside an encoding. */
  lemma {:induction false} PrefixIsWellFormedExactlyWhen(s: Text, cut: nat)
    requires WellFormed(s) && cut <= |s|
    ensures WellFormed(s[..cut]) <==> cut == |s| || !IsTail(s[cut])
    decreases |s|
  {
    if cut == |s| {
      assert s[..cut] == s;
    } else if cut > 0 {
      var w := Width(s);
      if w <= cut {
        PrefixIsWellFormedExactlyWhen(s[w..], cut - w);
        assert s[..cut][w..] == s[w..][..cut - w];
      }
    }
  }

  // ---------- searching and trimming ----------

  predicate OccursAt(text: Text, pattern: Text, at: nat) {
    at + |pattern| <= |text| && text[at..at + |pattern|] == pattern
  }

  /** strings.Index on text[from:], as an offset into text. */
  function IndexOf(text: Text, pattern: Text, from: nat): (r: Option<nat>)
    requires from <= |text|
    ensures r.Some? ==> from <= r.value && OccursAt(text, pattern, r.value)
    ensures forall at: nat :: from <= at && (r.Some? ==> at < r.value) ==> !OccursAt(text, pattern, at)
    decreases |text| - from
  {
    if OccursAt(text, pattern, from) then Some(from)
    else if from == |text| then None
    else IndexOf(text, pattern, from + 1)
  }

  predicate IsSpaceRune(r: Rune) { 0 <= r < 0xD800 && Space.IsSpace(r as char) }

  /** The White_Space code points of Unicode. */
  lemma SpaceRunesAre(r: Rune)
    ensures IsSpaceRune(r) <==>
            r in {0x09, 0x0A, 0x0B, 0x0C, 0x0D, 0x20, 0x85, 0xA0, 0x1680, 0x2000, 0x2001, 0x2002, 0x2003, 0x2004,
                  0x2005, 0x2006, 0x2007, 0x2008, 0x2009, 0x200A, 0x2028, 0x2029, 0x202F, 0x205F, 0x3000}
  {
    if 0 <= r < 0xD800 { Space.SpacesAre(r as char); }
  }

  function TrimLeft(s: Text): Text {
    var d := DecodeRune(s);
    if s != "" && IsSpaceRune(d.rune) then TrimLeft(s[d.size..]) else s
  }

  function TrimRight(s: Text): Text {
    var d := DecodeLastRune(s);
    if s != "" && IsSpaceRune(d.rune) then TrimRight(s[..|s| - d.size]) else s
  }

  /** strings.TrimSpace. */
  function TrimSpace(s: Text): Text { TrimRight(TrimLeft(s)) }

  /** s is white space, rune after rune. */
  predicate AllSpace(s: Text) {
    s == "" || (var d := DecodeRune(s); IsSpaceRune(d.rune) && AllSpace(s[d.size..]))
  }

  lemma WidthOfPrefix(a: Text, b: Text)
    requires Width(a) > 0
    ensures Width(a + b) == Width(a) && DecodeRune(a + b) == DecodeRune(a)
  {
    var w := Width(a);
    assert forall k :: 0 <= k < w ==> (a + b)[k] == a[k];
    assert seq(w, k requires 0 <= k < w => (a + b)[k] as int) == seq(w, k requires 0 <= k < w => a[k] as int);
  }

  lemma SpaceIsEncoded(s: Text)
    requires s != "" && IsSpaceRune(DecodeRune(s).rune)
    ensures Width(s) > 0
  {
  }

  lemma {:induction false} SpaceBesideSpace(a: Text, b: Text)
    requires AllSpace(a) && AllSpace(b)
    ensures AllSpace(a + b)
    decreases |a|
  {
    hide DecodeRune, IsSpaceRune, Width;
    if a == "" {
      assert a + b == b;
    } else {
      var d := DecodeRune(a);
      SpaceIsEncoded(a);
      WidthOfPrefix(a, b);
      SpaceBesideSpace(a[d.size..], b);
      assert (a + b)[d.size..] == a[d.size..] + b;
    }
  }

  /** strings.TrimLeftFunc takes white space and nothing else off the front. */
  lemma {:induction false} TrimLeftSplits(s: Text)
    ensures var t := TrimLeft(s);
            && |t| <= |s| && s[|s| - |t|..] == t && AllSpace(s[..|s| - |t|])
            && (t != "" ==> !IsSpaceRune(DecodeRune(t).rune))
    decreases |s|
  {
    hide DecodeRune, IsSpaceRune, AllSpace, Width, CodePoint;
    NothingIsSpace();
    var d := DecodeRune(s);
    if s != "" && IsSpaceRune(d.rune) {
      TrimLeftSplits(s[d.size..]);
      OneSpace(s);
      FrontGrows(s, d.size, TrimLeft(s));
    } else {
      assert s[..0] == "" && s[0..] == s;
    }
  }

  lemma FrontGrows(s: Text, first: nat, t: Text)
    requires first + |t| <= |s| && s[first..][|s| - first - |t|..] == t
    requires AllSpace(s[..first]) && AllSpace(s[first..][..|s| - first - |t|])
    ensures s[|s| - |t|..] == t && AllSpace(s[..|s| - |t|])
  {
    hide AllSpace;
    var more := s[first..][..|s| - first - |t|];
    assert s[..|s| - |t|] == s[..first] + more;
    SpaceBesideSpace(s[..first], more);
  }

  /** A space rune is encoded by well-formed bytes, so cutting it out changes nothing about it. */
  lemma OneSpace(s: Text)
    requires s != "" && IsSpaceRune(DecodeRune(s).rune)
    ensures AllSpace(s[..DecodeRune(s).size])
  {
    var d := DecodeRune(s);
    var first := s[..d.size];
    assert forall k :: 0 <= k < d.size ==> first[k] == s[k];
    assert Width(first) == d.size;
    assert first + s[d.size..] == s;
    WidthOfPrefix(first, s[d.size..]);
    assert first[d.size..] == "";
  }

  /** strings.TrimRightFunc likewise at the back. */
  lemma {:induction false} TrimRightSplits(s: Text)
    ensures var t := TrimRight(s);
            && t <= s && AllSpace(s[|t|..]) && (t != "" ==> !IsSpaceRune(DecodeLastRune(t).rune))
    decreases |s|
  {
    hide DecodeLastRune, DecodeRune, IsSpaceRune, AllSpace;
    NothingIsSpace();
    var d := DecodeLastRune(s);
    if s != "" && IsSpaceRune(d.rune) {
      var cut := |s| - d.size;
      TrimRightSplits(s[..cut]);
      var t := TrimRight(s);
      LastSpace(s);
      assert s[|t|..] == s[..cut][|t|..] + s[cut..];
      SpaceBesideSpace(s[..cut][|t|..], s[cut..]);
    } else {
      assert s[|s|..] == "";
    }
  }

  lemma NothingIsSpace()
    ensures AllSpace("")
  {
  }

  lemma LastSpace(s: Text)
    requires s != "" && IsSpaceRune(DecodeLastRune(s).rune)
    ensures AllSpace(s[|s| - DecodeLastRune(s).size..])
  {
    hide DecodeRune, AllSpace;
    var d := DecodeLastRune(s);
    var last := s[|s| - d.size..];
    assert DecodeRune(last) == d;
    OneSpace(last);
    assert last[..d.size] == last;
  }

  /** Cutting a text short puts no space in front: its first encoding is whole, or encodes nothing. */
  lemma FirstStaysNoSpace(s: Text, n: nat)
    requires n <= |s| && s != "" && !IsSpaceRune(DecodeRune(s).rune)
    ensures !IsSpaceRune(DecodeRune(s[..n]).rune)
  {
    hide CodePoint;
    var front := s[..n];
    if Width(front) > 0 {
      assert front + s[n..] == s;
      WidthOfPrefix(front, s[n..]);
    }
  }

  /** What strings.TrimSpace keeps is one stretch of the text, with white space on either side of it
      and none at its ends. */
  lemma TrimSpaceSplits(s: Text) returns (lo: nat, hi: nat)
    ensures lo <= hi <= |s| && TrimSpace(s) == s[lo..hi] && AllSpace(s[..lo]) && AllSpace(s[hi..])
    ensures lo < hi ==> !IsSpaceRune(DecodeRune(s[lo..hi]).rune) && !IsSpaceRune(DecodeLastRune(s[lo..hi]).rune)
  {
    hide DecodeLastRune, DecodeRune, IsSpaceRune, AllSpace, TrimLeft, TrimRight;
    var left := TrimLeft(s);
    TrimLeftSplits(s);
    TrimRightSplits(left);
    lo := |s| - |left|;
    hi := lo + |TrimRight(left)|;
    assert s[lo..][..hi - lo] == s[lo..hi];
    assert left[|TrimRight(left)|..] == s[hi..];
    if left != "" { FirstStaysNoSpace(left, hi - lo); }
  }
}
