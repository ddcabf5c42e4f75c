/** The calculator's tokenizer (bench/judge/judge.go).  What it accepts is said from the other
    side: a line spells a token list when it is the tokens' texts with white space around them,
    and at least one space wherever two literals would otherwise run together. */
module Lexer {
  import opened Wrappers
  import opened Negabinary

  datatype Token = Num(text: string) | Op(op: char) | LParen | RParen

  /** The offset and the character the tokenizer stopped at. */
  datatype LexError = UnexpectedCharacter(c: char, offset: nat)

  predicate IsSpace(c: char) { c == ' ' || c == '\t' || c == '\r' || c == '\n' }

  predicate IsOperator(c: char) { c == '+' || c == '-' || c == '*' || c == '/' }

  predicate IsLegal(c: char) { IsSpace(c) || IsDigit(c) || IsOperator(c) || c == '(' || c == ')' }

  predicate IsBlank(s: string) { forall i :: 0 <= i < |s| ==> IsSpace(s[i]) }

  // ---------- spelling a token list ----------

  function Text(t: Token): string {
    match t
    case Num(text) => text
    case Op(op) => [op]
    case LParen => "("
    case RParen => ")"
  }

  predicate WellFormedToken(t: Token) {
    match t
    case Num(text) => text != "" && AllDigits(text)
    case Op(op) => IsOperator(op)
    case _ => true
  }

  /** The texts of toks with gaps[k] in front of token k and the last gap at the end. */
  function Layout(toks: seq<Token>, gaps: seq<string>): string
    requires |gaps| == |toks| + 1
  {
    if toks == [] then gaps[0] else gaps[0] + Text(toks[0]) + Layout(toks[1..], gaps[1..])
  }

  predicate GoodGaps(toks: seq<Token>, gaps: seq<string>) {
    && |gaps| == |toks| + 1
    && (forall k :: 0 <= k < |gaps| ==> IsBlank(gaps[k]))
    && (forall k :: 0 < k < |toks| && toks[k - 1].Num? && toks[k].Num? ==> gaps[k] != "")
  }

  predicate WellFormedTokens(toks: seq<Token>) { forall k :: 0 <= k < |toks| ==> WellFormedToken(toks[k]) }

  ghost predicate SpelledWith(input: string, toks: seq<Token>, gaps: seq<string>) {
    GoodGaps(toks, gaps) && input == Layout(toks, gaps)
  }

  ghost predicate Spells(input: string, toks: seq<Token>) {
    WellFormedTokens(toks) && exists gaps :: SpelledWith(input, toks, gaps)
  }

  // ---------- the scan ----------

  /** The end of the run of digits that covers [i..j). */
  function DigitRunEnd(input: string, i: nat): (j: nat)
    requires i <= |input|
    ensures i <= j <= |input| && AllDigits(input[i..j])
    ensures j < |input| ==> !IsDigit(input[j])
    ensures i < |input| && IsDigit(input[i]) ==> i < j
    decreases |input| - i
  {
    if i < |input| && IsDigit(input[i]) then DigitRunEnd(input, i + 1) else i
  }

  function Single(c: char): Token
    requires IsOperator(c) || c == '(' || c == ')'
  {
    if c == '(' then LParen else if c == ')' then RParen else Op(c)
  }

  /** The tokens from offset i on. */
  function Scan(input: string, i: nat): Result<seq<Token>, LexError>
    requires i <= |input|
    decreases |input| - i
  {
    if i == |input| then Success([])
    else if IsSpace(input[i]) then Scan(input, i + 1)
    else if IsDigit(input[i]) then
      var j := DigitRunEnd(input, i);
      Prepend(Num(input[i..j]), Scan(input, j))
    else if IsOperator(input[i]) || input[i] == '(' || input[i] == ')' then
      Prepend(Single(input[i]), Scan(input, i + 1))
    else Failure(UnexpectedCharacter(input[i], i))
  }

  function Prepend(t: Token, r: Result<seq<Token>, LexError>): Result<seq<Token>, LexError> {
    if r.Success? then Success([t] + r.value) else r
  }

  /** What a finished scan from i gives, in front of the tokens already collected. */
  function Onto(toks: seq<Token>, r: Result<seq<Token>, LexError>): Result<seq<Token>, LexError> {
    if r.Success? then Success(toks + r.value) else r
  }

  lemma OntoPrepend(toks: seq<Token>, t: Token, r: Result<seq<Token>, LexError>)
    ensures Onto(toks, Prepend(t, r)) == Onto(toks + [t], r)
  {
    if r.Success? {
      assert toks + ([t] + r.value) == toks + [t] + r.value;
    }
  }

  method Tokenize(input: string) returns (r: Result<seq<Token>, LexError>)
    ensures r == Scan(input, 0)
    ensures r.Success? ==> Spells(input, r.value)
    ensures forall toks :: Spells(input, toks) ==> r == Success(toks)
    ensures r.Failure? ==> r.error.offset < |input| && r.error.c == input[r.error.offset] && !IsLegal(r.error.c)
                           && forall k :: 0 <= k < r.error.offset ==> IsLegal(input[k])
  {
    var toks: seq<Token> := [];
    var i := 0;
    assert Scan(input, 0).Success? ==> [] + Scan(input, 0).value == Scan(input, 0).value;
    while i < |input|
      invariant 0 <= i <= |input|
      invariant forall k :: 0 <= k < i ==> IsLegal(input[k])
      invariant Scan(input, 0) == Onto(toks, Scan(input, i))
    {
      var c := input[i];
      if IsSpace(c) {
        i := i + 1;
      } else if c == '0' || c == '1' {
        var j := i;
        while j < |input| && (input[j] == '0' || input[j] == '1')
          invariant i <= j <= |input| && (i < |input| && IsDigit(input[i]))
          invariant AllDigits(input[i..j])
          invariant DigitRunEnd(input, j) == DigitRunEnd(input, i)
        {
          assert input[i..j + 1] == input[i..j] + [input[j]];
          j := j + 1;
        }
        OntoPrepend(toks, Num(input[i..j]), Scan(input, j));
        forall k | i <= k < j ensures IsLegal(input[k]) {
          assert input[k] == input[i..j][k - i];
        }
        toks := toks + [Num(input[i..j])];
        i := j;
      } else if c == '+' || c == '-' || c == '*' || c == '/' {
        OntoPrepend(toks, Op(c), Scan(input, i + 1));
        toks := toks + [Op(c)];
        i := i + 1;
      } else if c == '(' {
        OntoPrepend(toks, LParen, Scan(input, i + 1));
        toks := toks + [LParen];
        i := i + 1;
      } else if c == ')' {
        OntoPrepend(toks, RParen, Scan(input, i + 1));
        toks := toks + [RParen];
        i := i + 1;
      } else {
        r := Failure(UnexpectedCharacter(c, i));
        ScanCharacterisesSpelling(input);
        return;
      }
    }
    r := Success(toks);
    assert toks + [] == toks;
    ScanCharacterisesSpelling(input);
  }

  // ---------- the scan and the spelling agree ----------

  lemma ScanCharacterisesSpelling(input: string)
    ensures Scan(input, 0).Success? ==> Spells(input, Scan(input, 0).value)
    ensures forall toks :: Spells(input, toks) ==> Scan(input, 0) == Success(toks)
  {
    if Scan(input, 0).Success? {
      var gaps := GapsOf(input, 0);
      assert input[0..] == input;
      assert SpelledWith(input, Scan(input, 0).value, gaps);
    }
    forall toks | Spells(input, toks) ensures Scan(input, 0) == Success(toks) {
      var gaps :| SpelledWith(input, toks, gaps);
      assert input[0..] == input;
      ScanOfLayout(input, 0, toks, gaps);
    }
  }

  lemma SpaceInFront(c: char, s: string, toks: seq<Token>, gaps: seq<string>)
    requires IsSpace(c) && SpelledWith(s, toks, gaps)
    ensures SpelledWith([c] + s, toks, [[c] + gaps[0]] + gaps[1..])
  {
    var more := [[c] + gaps[0]] + gaps[1..];
    assert more[1..] == gaps[1..];
    if toks != [] {
      var tail := Text(toks[0]) + Layout(toks[1..], gaps[1..]);
      assert s == gaps[0] + tail by { assert s == gaps[0] + Text(toks[0]) + Layout(toks[1..], gaps[1..]); }
      assert Layout(toks, more) == more[0] + tail;
    }
  }

  lemma TokenInFront(t: Token, s: string, toks: seq<Token>, gaps: seq<string>)
    requires SpelledWith(s, toks, gaps)
    requires t.Num? && toks != [] && toks[0].Num? ==> gaps[0] != ""
    ensures SpelledWith(Text(t) + s, [t] + toks, [""] + gaps)
  {
    assert ([t] + toks)[1..] == toks && ([""] + gaps)[1..] == gaps;
    assert Layout([t] + toks, [""] + gaps) == "" + Text(t) + Layout(toks, gaps);
  }

  /** Soundness: the gaps the scan skipped. */
  lemma {:induction false} GapsOf(input: string, i: nat) returns (gaps: seq<string>)
    requires i <= |input| && Scan(input, i).Success?
    ensures var toks := Scan(input, i).value;
            && WellFormedTokens(toks) && SpelledWith(input[i..], toks, gaps)
            && (toks != [] && toks[0].Num? && gaps[0] == "" ==> i < |input| && IsDigit(input[i]))
    decreases |input| - i
  {
    var toks := Scan(input, i).value;
    if i == |input| {
      gaps := [""];
    } else if IsSpace(input[i]) {
      var rest := GapsOf(input, i + 1);
      gaps := [[input[i]] + rest[0]] + rest[1..];
      assert input[i..] == [input[i]] + input[i + 1..];
      SpaceInFront(input[i], input[i + 1..], toks, rest);
    } else {
      var j := if IsDigit(input[i]) then DigitRunEnd(input, i) else i + 1;
      var rest := GapsOf(input, j);
      gaps := [""] + rest;
      assert input[i..] == input[i..j] + input[j..];
      assert Text(toks[0]) == input[i..j];
      TokenInFront(toks[0], input[j..], Scan(input, j).value, rest);
    }
  }

  /** Completeness: a spelled line scans back to its tokens. */
  lemma {:induction false} ScanOfLayout(input: string, i: nat, toks: seq<Token>, gaps: seq<string>)
    requires i <= |input| && WellFormedTokens(toks) && SpelledWith(input[i..], toks, gaps)
    ensures Scan(input, i) == Success(toks)
    decreases |input| - i
  {
    if gaps[0] != "" {
      var fewer := DropSpace(input, i, toks, gaps);
      ScanOfLayout(input, i + 1, toks, fewer);
    } else if toks == [] {
      assert input[i..] == "";
    } else {
      var j := DropToken(input, i, toks, gaps);
      ScanOfLayout(input, j, toks[1..], gaps[1..]);
      assert [toks[0]] + toks[1..] == toks;
    }
  }

  lemma DropSpace(input: string, i: nat, toks: seq<Token>, gaps: seq<string>) returns (fewer: seq<string>)
    requires i <= |input| && SpelledWith(input[i..], toks, gaps) && gaps[0] != ""
    ensures i < |input| && IsSpace(input[i]) && SpelledWith(input[i + 1..], toks, fewer)
  {
    hide Layout;
    fewer := [gaps[0][1..]] + gaps[1..];
    var tail := if toks == [] then "" else Text(toks[0]) + Layout(toks[1..], gaps[1..]);
    assert fewer[1..] == gaps[1..];
    LayoutSplits(toks, gaps, tail);
    LayoutSplits(toks, fewer, tail);
    assert input[i] == input[i..][0] == gaps[0][0];
    assert input[i + 1..] == input[i..][1..];
    assert (gaps[0] + tail)[1..] == gaps[0][1..] + tail;
  }

  lemma LayoutSplits(toks: seq<Token>, gaps: seq<string>, tail: string)
    requires |gaps| == |toks| + 1
    requires tail == if toks == [] then "" else Text(toks[0]) + Layout(toks[1..], gaps[1..])
    ensures Layout(toks, gaps) == gaps[0] + tail
  {
    if toks != [] {
      assert gaps[0] + Text(toks[0]) + Layout(toks[1..], gaps[1..]) == gaps[0] + tail;
    }
  }

  lemma DropToken(input: string, i: nat, toks: seq<Token>, gaps: seq<string>) returns (j: nat)
    requires i <= |input| && WellFormedTokens(toks) && SpelledWith(input[i..], toks, gaps)
    requires toks != [] && gaps[0] == ""
    ensures i < j <= |input| && input[i..j] == Text(toks[0]) && input[i] == Text(toks[0])[0]
    ensures WellFormedTokens(toks[1..]) && SpelledWith(input[j..], toks[1..], gaps[1..])
    ensures toks[0].Num? ==> DigitRunEnd(input, i) == j
  {
    assert WellFormedToken(toks[0]);
    var text, tail := Text(toks[0]), Layout(toks[1..], gaps[1..]);
    j := i + |text|;
    LayoutSplits(toks, gaps, text + tail);
    assert input[i..] == text + tail;
    assert input[i..j] == input[i..][..|text|] && input[j..] == input[i..][|text|..];
    assert input[i] == input[i..][0];
    if toks[0].Num? {
      if j < |input| {
        assert input[j] == input[j..][0];
        NotADigitNext(toks, gaps);
      }
      DigitRunIs(input, i, j);
    }
  }

  /** After a literal the layout goes on with anything but a digit. */
  lemma NotADigitNext(toks: seq<Token>, gaps: seq<string>)
    requires toks != [] && toks[0].Num? && WellFormedTokens(toks) && GoodGaps(toks, gaps)
    requires Layout(toks[1..], gaps[1..]) != ""
    ensures !IsDigit(Layout(toks[1..], gaps[1..])[0])
  {
    var tail := Layout(toks[1..], gaps[1..]);
    if gaps[1] != "" {
      assert tail[0] == gaps[1][0];
    } else if |toks| > 1 {
      assert tail == Text(toks[1]) + Layout(toks[2..], gaps[2..]) by {
        assert toks[1..][1..] == toks[2..] && gaps[1..][1..] == gaps[2..];
      }
      assert WellFormedToken(toks[1]) && !toks[1].Num?;
    }
  }

  lemma {:induction false} DigitRunIs(input: string, i: nat, j: nat)
    requires i <= j <= |input| && AllDigits(input[i..j]) && (j < |input| ==> !IsDigit(input[j]))
    ensures DigitRunEnd(input, i) == j
    decreases j - i
  {
    if i < j {
      assert input[i] == input[i..j][0];
      assert input[i + 1..j] == input[i..j][1..];
      DigitRunIs(input, i + 1, j);
    }
  }
}
