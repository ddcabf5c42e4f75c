/** The calculator oracle (bench/judge/judge.go): a recursive-descent parser that evaluates as it
    reads.  Its methods advance one position field; each is proved against a function of the
    tokens and the position, and those functions against the grammar's printings. */
module Calculator {
  import opened Wrappers
  import opened Negabinary
  import opened Lexer
  import opened Grammar

  datatype EvalError =
    | BadCharacter(lex: LexError)
    | UnexpectedEnd
    | UnexpectedToken(token: Token)
    | MissingParenthesis
    | DivisionByZero
    | TrailingTokens(pos: nat)

  /** A value and the position behind it, or the error that stopped the parse. */
  datatype Parsed = Ok(value: int, next: nat) | Bad(error: EvalError)

  // ---------- what each parser method computes ----------

  predicate Additive(toks: seq<Token>, pos: nat) {
    pos < |toks| && (toks[pos] == Op('+') || toks[pos] == Op('-'))
  }

  predicate Multiplicative(toks: seq<Token>, pos: nat) {
    pos < |toks| && (toks[pos] == Op('*') || toks[pos] == Op('/'))
  }

  function Expr(toks: seq<Token>, pos: nat): (r: Parsed)
    requires pos <= |toks|
    ensures r.Ok? ==> pos < r.next <= |toks|
    decreases |toks| - pos, 4
  {
    var first := Term(toks, pos);
    if first.Bad? then first else ExprTail(toks, first.next, first.value)
  }

  function ExprTail(toks: seq<Token>, pos: nat, v: int): (r: Parsed)
    requires pos <= |toks|
    ensures r.Ok? ==> pos <= r.next <= |toks|
    decreases |toks| - pos, 3
  {
    if !Additive(toks, pos) then Ok(v, pos) else
      var rhs := Term(toks, pos + 1);
      if rhs.Bad? then rhs
      else ExprTail(toks, rhs.next, if toks[pos].op == '+' then v + rhs.value else v - rhs.value)
  }

  function Term(toks: seq<Token>, pos: nat): (r: Parsed)
    requires pos <= |toks|
    ensures r.Ok? ==> pos < r.next <= |toks|
    decreases |toks| - pos, 2
  {
    var first := Unary(toks, pos);
    if first.Bad? then first else TermTail(toks, first.next, first.value)
  }

  function TermTail(toks: seq<Token>, pos: nat, v: int): (r: Parsed)
    requires pos <= |toks|
    ensures r.Ok? ==> pos <= r.next <= |toks|
    decreases |toks| - pos, 2
  {
    if !Multiplicative(toks, pos) then Ok(v, pos) else
      var rhs := Unary(toks, pos + 1);
      if rhs.Bad? then rhs
      else if toks[pos].op == '*' then TermTail(toks, rhs.next, v * rhs.value)
      else if rhs.value == 0 then Bad(DivisionByZero)
      else TermTail(toks, rhs.next, FloorDiv(v, rhs.value))
  }

  function Unary(toks: seq<Token>, pos: nat): (r: Parsed)
    requires pos <= |toks|
    ensures r.Ok? ==> pos < r.next <= |toks|
    decreases |toks| - pos, 1
  {
    if pos < |toks| && toks[pos] == Op('-') then
      var operand := Unary(toks, pos + 1);
      if operand.Bad? then operand else Ok(-operand.value, operand.next)
    else Primary(toks, pos)
  }

  function Primary(toks: seq<Token>, pos: nat): (r: Parsed)
    requires pos <= |toks|
    ensures r.Ok? ==> pos < r.next <= |toks|
    decreases |toks| - pos, 0
  {
    if pos == |toks| then Bad(UnexpectedEnd)
    else match toks[pos]
      case Num(text) => Ok(Value(text), pos + 1)
      case LParen =>
        var inner := Expr(toks, pos + 1);
        if inner.Bad? then inner
        else if inner.next < |toks| && toks[inner.next] == RParen then Ok(inner.value, inner.next + 1)
        else Bad(MissingParenthesis)
      case _ => Bad(UnexpectedToken(toks[pos]))
  }

  // ---------- the parser ----------

  class Parser {
    const toks: seq<Token>
    var pos: nat

    constructor (toks: seq<Token>)
      ensures this.toks == toks && pos == 0
    {
      this.toks := toks;
      pos := 0;
    }

    predicate Valid()
      reads this
    {
      pos <= |toks| && WellFormedTokens(toks)
    }

    /** The method's result and the position it left are what the function p says. */
    predicate Agrees(r: Result<int, EvalError>, p: Parsed)
      reads this
    {
      Valid() && r == (if p.Ok? then Success(p.value) else Failure(p.error)) && (p.Ok? ==> pos == p.next)
    }

    method ParseExpr() returns (r: Result<int, EvalError>)
      requires Valid()
      modifies this`pos
      ensures Agrees(r, Expr(toks, old(pos)))
      decreases |toks| - pos, 4
    {
      r := ParseTerm();
      if r.Failure? { return; }
      var v := r.value;
      while Additive(toks, pos)
        invariant Valid() && old(pos) < pos
        invariant Expr(toks, old(pos)) == ExprTail(toks, pos, v)
        decreases |toks| - pos
      {
        var op := toks[pos].op;
        pos := pos + 1;
        r := ParseTerm();
        if r.Failure? { return; }
        v := if op == '+' then v + r.value else v - r.value;
      }
      r := Success(v);
    }

    method ParseTerm() returns (r: Result<int, EvalError>)
      requires Valid()
      modifies this`pos
      ensures Agrees(r, Term(toks, old(pos)))
      decreases |toks| - pos, 2
    {
      r := ParseUnary();
      if r.Failure? { return; }
      var v := r.value;
      while Multiplicative(toks, pos)
        invariant Valid() && old(pos) < pos
        invariant Term(toks, old(pos)) == TermTail(toks, pos, v)
        decreases |toks| - pos
      {
        var op := toks[pos].op;
        pos := pos + 1;
        r := ParseUnary();
        if r.Failure? { return; }
        if op == '*' {
          v := v * r.value;
        } else {
          if r.value == 0 { return Failure(DivisionByZero); }
          v := FloorDiv(v, r.value);
        }
      }
      r := Success(v);
    }

    method ParseUnary() returns (r: Result<int, EvalError>)
      requires Valid()
      modifies this`pos
      ensures Agrees(r, Unary(toks, old(pos)))
      decreases |toks| - pos, 1
    {
      if pos < |toks| && toks[pos] == Op('-') {
        pos := pos + 1;
        r := ParseUnary();
        if r.Failure? { return; }
        return Success(-r.value);
      }
      r := ParsePrimary();
    }

    method ParsePrimary() returns (r: Result<int, EvalError>)
      requires Valid()
      modifies this`pos
      ensures Agrees(r, Primary(toks, old(pos)))
      decreases |toks| - pos, 0
    {
      if pos == |toks| { return Failure(UnexpectedEnd); }
      match toks[pos]
      case Num(text) =>
        assert WellFormedToken(toks[pos]);
        pos := pos + 1;
        var value := FromNegabinary(text);
        r := Success(value.value);
      case LParen =>
        pos := pos + 1;
        r := ParseExpr();
        if r.Failure? { return; }
        if pos == |toks| || toks[pos] != RParen { return Failure(MissingParenthesis); }
        pos := pos + 1;
      case _ =>
        r := Failure(UnexpectedToken(toks[pos]));
    }
  }

  // ---------- one unfolding of each ----------

  lemma ExprUnfolds(toks: seq<Token>, pos: nat)
    requires pos <= |toks|
    ensures var first := Term(toks, pos);
            Expr(toks, pos) == if first.Bad? then first else ExprTail(toks, first.next, first.value)
  {
  }

  lemma ExprTailUnfolds(toks: seq<Token>, pos: nat, v: int)
    requires pos <= |toks|
    ensures !Additive(toks, pos) ==> ExprTail(toks, pos, v) == Ok(v, pos)
    ensures Additive(toks, pos) ==>
              var rhs := Term(toks, pos + 1);
              ExprTail(toks, pos, v) ==
              if rhs.Bad? then rhs else ExprTail(toks, rhs.next, Apply(toks[pos].op, v, rhs.value).value)
  {
  }

  lemma TermUnfolds(toks: seq<Token>, pos: nat)
    requires pos <= |toks|
    ensures var first := Unary(toks, pos);
            Term(toks, pos) == if first.Bad? then first else TermTail(toks, first.next, first.value)
  {
  }

  lemma TermTailUnfolds(toks: seq<Token>, pos: nat, v: int)
    requires pos <= |toks|
    ensures !Multiplicative(toks, pos) ==> TermTail(toks, pos, v) == Ok(v, pos)
    ensures Multiplicative(toks, pos) ==>
              var rhs := Unary(toks, pos + 1);
              TermTail(toks, pos, v) ==
              if rhs.Bad? then rhs
              else match Apply(toks[pos].op, v, rhs.value)
                case None => Bad(DivisionByZero)
                case Some(w) => TermTail(toks, rhs.next, w)
  {
  }

  // ---------- completeness: a printing is read as the expression it stands for ----------

  predicate At(toks: seq<Token>, pos: nat, part: seq<Token>) {
    pos + |part| <= |toks| && toks[pos..pos + |part|] == part
  }

  lemma AtSplit(toks: seq<Token>, pos: nat, a: seq<Token>, b: seq<Token>)
    requires At(toks, pos, a + b)
    ensures At(toks, pos, a) && At(toks, pos + |a|, b)
  {
    assert toks[pos..pos + |a + b|][..|a|] == a;
    assert toks[pos..pos + |a + b|][|a|..] == b;
  }

  lemma InfixAt(toks: seq<Token>, pos: nat, t: Printing)
    requires t.Infix? && At(toks, pos, Yield(t))
    ensures var mid := pos + |Yield(t.left)|;
            && At(toks, pos, Yield(t.left)) && mid < |toks| && toks[mid] == Op(t.op)
            && At(toks, mid + 1, Yield(t.right)) && mid + 1 + |Yield(t.right)| == pos + |Yield(t)|
  {
    var mid := pos + |Yield(t.left)|;
    AtSplit(toks, pos, Yield(t.left) + [Op(t.op)], Yield(t.right));
    AtSplit(toks, pos, Yield(t.left), [Op(t.op)]);
    assert toks[mid] == toks[mid..mid + 1][0];
  }

  lemma GroupAt(toks: seq<Token>, pos: nat, t: Printing) returns (close: nat)
    requires t.Group? && At(toks, pos, Yield(t))
    ensures close == pos + 1 + |Yield(t.inner)| == pos + |Yield(t)| - 1
    ensures toks[pos] == LParen && At(toks, pos + 1, Yield(t.inner)) && toks[close] == RParen
  {
    var inner := Yield(t.inner);
    close := pos + 1 + |inner|;
    AtSplit(toks, pos, [LParen] + inner, [RParen]);
    AtSplit(toks, pos, [LParen], inner);
    assert toks[pos] == toks[pos..pos + 1][0] == LParen;
    assert toks[close] == toks[close..close + 1][0] == RParen;
  }

  lemma {:induction false} UnaryReads(toks: seq<Token>, pos: nat, t: Printing)
    requires Grammatical(t) && Rank(t) >= 2 && At(toks, pos, Yield(t))
    ensures Unary(toks, pos) == match Outcome(t)
                                case Some(v) => Ok(v, pos + |Yield(t)|)
                                case None => Bad(DivisionByZero)
    decreases t, 0
  {
    hide Term;
    hide TermTail;
    hide Expr;
    hide ExprTail;
    hide FloorDiv;
    match t
    case Literal(text) =>
      assert toks[pos] == toks[pos..pos + 1][0] == Num(text);
    case Minus(x) =>
      AtSplit(toks, pos, [Op('-')], Yield(x));
      assert toks[pos] == toks[pos..pos + 1][0] == Op('-');
      UnaryReads(toks, pos + 1, x);
    case Group(x) =>
      var close := GroupAt(toks, pos, t);
      ExprReads(toks, pos + 1, x);
      if Outcome(x).Some? {
        ExprTailUnfolds(toks, close, Outcome(x).value);
      }
  }

  lemma {:induction false} TermReads(toks: seq<Token>, pos: nat, t: Printing)
    requires Grammatical(t) && Rank(t) >= 1 && At(toks, pos, Yield(t))
    ensures Term(toks, pos) == match Outcome(t)
                               case Some(v) => TermTail(toks, pos + |Yield(t)|, v)
                               case None => Bad(DivisionByZero)
    decreases t, 1
  {
    hide Expr;
    hide ExprTail;
    hide Term;
    hide TermTail;
    hide Unary;
    hide FloorDiv;
    if Rank(t) >= 2 {
      UnaryReads(toks, pos, t);
      TermUnfolds(toks, pos);
    } else {
      var l, r, mid := t.left, t.right, pos + |Yield(t.left)|;
      InfixAt(toks, pos, t);
      TermReads(toks, pos, l);
      UnaryReads(toks, mid + 1, r);
      if Outcome(l).Some? {
        TermTailUnfolds(toks, mid, Outcome(l).value);
      }
    }
  }

  lemma {:induction false} ExprReads(toks: seq<Token>, pos: nat, t: Printing)
    requires Grammatical(t) && At(toks, pos, Yield(t))
    requires !Multiplicative(toks, pos + |Yield(t)|)
    ensures Expr(toks, pos) == match Outcome(t)
                               case Some(v) => ExprTail(toks, pos + |Yield(t)|, v)
                               case None => Bad(DivisionByZero)
    decreases t, 2
  {
    hide Expr;
    hide ExprTail;
    hide Term;
    hide TermTail;
    hide Unary;
    hide FloorDiv;
    var next := pos + |Yield(t)|;
    if Rank(t) >= 1 {
      TermReads(toks, pos, t);
      ExprUnfolds(toks, pos);
      if Outcome(t).Some? {
        TermTailUnfolds(toks, next, Outcome(t).value);
      }
    } else {
      var l, r, mid := t.left, t.right, pos + |Yield(t.left)|;
      InfixAt(toks, pos, t);
      ExprReads(toks, pos, l);
      TermReads(toks, mid + 1, r);
      if Outcome(l).Some? {
        ExprTailUnfolds(toks, mid, Outcome(l).value);
        if Outcome(r).Some? {
          TermTailUnfolds(toks, next, Outcome(r).value);
        }
      }
    }
  }

  // ---------- soundness: what is read is the yield of a printing ----------

  /** t is a printing of toks[from..to) of at least the given rank, with value v. */
  ghost predicate Derives(t: Printing, rank: nat, toks: seq<Token>, from: nat, to: nat, v: int) {
    from <= to <= |toks| && Grammatical(t) && Rank(t) >= rank && Yield(t) == toks[from..to] && Outcome(t) == Some(v)
  }

  lemma {:induction false} UnaryDerives(toks: seq<Token>, pos: nat) returns (t: Printing)
    requires pos <= |toks| && WellFormedTokens(toks) && Unary(toks, pos).Ok?
    ensures Derives(t, 2, toks, pos, Unary(toks, pos).next, Unary(toks, pos).value)
    decreases |toks| - pos, 1
  {
    if toks[pos] == Op('-') {
      var x := UnaryDerives(toks, pos + 1);
      t := Minus(x);
      assert toks[pos..Unary(toks, pos).next] == [toks[pos]] + toks[pos + 1..Unary(toks, pos).next];
    } else if toks[pos].Num? {
      assert WellFormedToken(toks[pos]);
      t := Literal(toks[pos].text);
    } else {
      var x := ExprDerives(toks, pos + 1);
      t := Group(x);
      var close := Expr(toks, pos + 1).next;
      assert toks[pos..close + 1] == [toks[pos]] + toks[pos + 1..close] + [toks[close]];
    }
  }

  lemma {:induction false} TermDerives(toks: seq<Token>, pos: nat) returns (t: Printing)
    requires pos <= |toks| && WellFormedTokens(toks) && Term(toks, pos).Ok?
    ensures Derives(t, 1, toks, pos, Term(toks, pos).next, Term(toks, pos).value)
    decreases |toks| - pos, 2
  {
    var first := UnaryDerives(toks, pos);
    t := TermTailDerives(toks, pos, Unary(toks, pos).next, Unary(toks, pos).value, first);
  }

  lemma {:induction false} TermTailDerives(toks: seq<Token>, from: nat, pos: nat, v: int, left: Printing)
    returns (t: Printing)
    requires from < pos <= |toks| && WellFormedTokens(toks) && TermTail(toks, pos, v).Ok?
    requires Derives(left, 1, toks, from, pos, v)
    ensures Derives(t, 1, toks, from, TermTail(toks, pos, v).next, TermTail(toks, pos, v).value)
    decreases |toks| - pos, 2
  {
    hide Expr;
    hide ExprTail;
    hide Term;
    hide TermTail;
    hide Unary;
    hide FloorDiv;
    TermTailUnfolds(toks, pos, v);
    if !Multiplicative(toks, pos) {
      t := left;
    } else {
      var right := UnaryDerives(toks, pos + 1);
      var rhs := Unary(toks, pos + 1);
      var both := Infix(toks[pos].op, left, right);
      assert toks[from..rhs.next] == toks[from..pos] + [toks[pos]] + toks[pos + 1..rhs.next];
      t := TermTailDerives(toks, from, rhs.next, Apply(toks[pos].op, v, rhs.value).value, both);
    }
  }

  lemma {:induction false} ExprDerives(toks: seq<Token>, pos: nat) returns (t: Printing)
    requires pos <= |toks| && WellFormedTokens(toks) && Expr(toks, pos).Ok?
    ensures Derives(t, 0, toks, pos, Expr(toks, pos).next, Expr(toks, pos).value)
    decreases |toks| - pos, 4
  {
    var first := TermDerives(toks, pos);
    t := ExprTailDerives(toks, pos, Term(toks, pos).next, Term(toks, pos).value, first);
  }

  lemma {:induction false} ExprTailDerives(toks: seq<Token>, from: nat, pos: nat, v: int, left: Printing)
    returns (t: Printing)
    requires from < pos <= |toks| && WellFormedTokens(toks) && ExprTail(toks, pos, v).Ok?
    requires Derives(left, 0, toks, from, pos, v)
    ensures Derives(t, 0, toks, from, ExprTail(toks, pos, v).next, ExprTail(toks, pos, v).value)
    decreases |toks| - pos, 3
  {
    hide Expr;
    hide ExprTail;
    hide Term;
    hide TermTail;
    hide Unary;
    hide FloorDiv;
    ExprTailUnfolds(toks, pos, v);
    if !Additive(toks, pos) {
      t := left;
    } else {
      var right := TermDerives(toks, pos + 1);
      var rhs := Term(toks, pos + 1);
      var both := Infix(toks[pos].op, left, right);
      assert toks[from..rhs.next] == toks[from..pos] + [toks[pos]] + toks[pos + 1..rhs.next];
      t := ExprTailDerives(toks, from, rhs.next, Apply(toks[pos].op, v, rhs.value).value, both);
    }
  }

  // ---------- the oracle ----------

  /** input is t printed with some spacing. */
  ghost predicate Prints(input: string, t: Printing) { Grammatical(t) && Spells(input, Yield(t)) }

  function Answer(t: Printing): Result<string, EvalError> {
    match Outcome(t)
    case Some(v) => Success(Render(v))
    case None => Failure(DivisionByZero)
  }

  /** r is the answer of every printing that input spells. */
  ghost predicate AsPrinted(input: string, r: Result<string, EvalError>) {
    forall t :: Prints(input, t) ==> r == Answer(t)
  }

  /** Every printing of an expression evaluates to its value, failing on division by zero and on
      nothing else; and every line that gets an answer is such a printing. */
  method EvalExpr(input: string) returns (r: Result<string, EvalError>)
    ensures AsPrinted(input, r)
    ensures r.Success? ==> exists t :: Prints(input, t) && r == Answer(t)
    ensures (r.Failure? && r.error.BadCharacter?) <==> exists i :: 0 <= i < |input| && !IsCalculatorCharacter(input[i])
    ensures AnswersSmallLines(input, r)
  {
    var lexed := Tokenize(input);
    if lexed.Failure? {
      r := Failure(BadCharacter(lexed.error));
      assert !IsCalculatorCharacter(input[lexed.error.offset]);
      assert forall t :: !Prints(input, t);
      SmallLinesFollow(input, r);
      return;
    }
    var toks := lexed.value;
    assert forall i :: 0 <= i < |input| ==> IsLegal(input[i]) by { ScannedIsLegal(input, 0); }
    var p := new Parser(toks);
    var v := p.ParseExpr();
    PrintingsAreRead(input, toks);
    if v.Failure? {
      NotALexicalError(toks, 0);
      r := Failure(v.error);
      SmallLinesFollow(input, r);
      return;
    }
    if p.pos != |p.toks| {
      r := Failure(TrailingTokens(p.pos));
      SmallLinesFollow(input, r);
      return;
    }
    var s := ToNegabinary(v.value);
    ghost var t := ExprDerives(toks, 0);
    assert toks[0..|toks|] == toks;
    assert Prints(input, t) && Success(s) == Answer(t);
    r := Success(s);
    SmallLinesFollow(input, r);
  }

  /** The parser has errors of its own; bad characters are the tokenizer's. */
  lemma {:induction false} NotALexicalError(toks: seq<Token>, pos: nat)
    requires pos <= |toks|
    ensures Expr(toks, pos).Bad? ==> !Expr(toks, pos).error.BadCharacter?
    decreases |toks| - pos, 4
  {
    TermIsNoLexicalError(toks, pos);
    if Term(toks, pos).Ok? { TailIsNoLexicalError(toks, Term(toks, pos).next, Term(toks, pos).value); }
  }

  lemma {:induction false} TailIsNoLexicalError(toks: seq<Token>, pos: nat, v: int)
    requires pos <= |toks|
    ensures ExprTail(toks, pos, v).Bad? ==> !ExprTail(toks, pos, v).error.BadCharacter?
    decreases |toks| - pos, 3
  {
    ExprTailUnfolds(toks, pos, v);
    if Additive(toks, pos) {
      TermIsNoLexicalError(toks, pos + 1);
      var rhs := Term(toks, pos + 1);
      if rhs.Ok? {
        TailIsNoLexicalError(toks, rhs.next, if toks[pos].op == '+' then v + rhs.value else v - rhs.value);
      }
    }
  }

  lemma {:induction false} TermIsNoLexicalError(toks: seq<Token>, pos: nat)
    requires pos <= |toks|
    ensures Term(toks, pos).Bad? ==> !Term(toks, pos).error.BadCharacter?
    decreases |toks| - pos, 2
  {
    UnaryIsNoLexicalError(toks, pos);
    if Unary(toks, pos).Ok? { TermTailIsNoLexicalError(toks, Unary(toks, pos).next, Unary(toks, pos).value); }
  }

  lemma {:induction false} TermTailIsNoLexicalError(toks: seq<Token>, pos: nat, v: int)
    requires pos <= |toks|
    ensures TermTail(toks, pos, v).Bad? ==> !TermTail(toks, pos, v).error.BadCharacter?
    decreases |toks| - pos, 1
  {
    if Multiplicative(toks, pos) {
      UnaryIsNoLexicalError(toks, pos + 1);
      var rhs := Unary(toks, pos + 1);
      if rhs.Ok? && toks[pos].op == '*' {
        TermTailIsNoLexicalError(toks, rhs.next, v * rhs.value);
      } else if rhs.Ok? && rhs.value != 0 {
        TermTailIsNoLexicalError(toks, rhs.next, FloorDiv(v, rhs.value));
      }
    }
  }

  lemma {:induction false} UnaryIsNoLexicalError(toks: seq<Token>, pos: nat)
    requires pos <= |toks|
    ensures Unary(toks, pos).Bad? ==> !Unary(toks, pos).error.BadCharacter?
    decreases |toks| - pos, 0
  {
    if pos < |toks| && toks[pos] == Op('-') {
      UnaryIsNoLexicalError(toks, pos + 1);
    } else if pos < |toks| && toks[pos].LParen? {
      NotALexicalError(toks, pos + 1);
    }
  }

  // ---------- small lines, spelled out ----------

  /** The characters a line may hold. */
  predicate IsCalculatorCharacter(c: char) {
    c == ' ' || c == '\t' || c == '\r' || c == '\n' || c == '0' || c == '1'
    || c == '+' || c == '-' || c == '*' || c == '/' || c == '(' || c == ')'
  }

  predicate IsLiteral(x: string) { x != "" && forall i :: 0 <= i < |x| ==> x[i] == '0' || x[i] == '1' }

  predicate IsGap(g: string) {
    forall i :: 0 <= i < |g| ==> g[i] == ' ' || g[i] == '\t' || g[i] == '\r' || g[i] == '\n'
  }

  /** The texts one after the other, with gaps[k] in front of text k and the last gap at the end. */
  function Spread(texts: seq<string>, gaps: seq<string>): string
    requires |gaps| == |texts| + 1
  {
    if texts == [] then gaps[0] else gaps[0] + texts[0] + Spread(texts[1..], gaps[1..])
  }

  /** The line consists of these texts, with any spacing. */
  ghost predicate Reads(input: string, texts: seq<string>) {
    exists gaps :: |gaps| == |texts| + 1 && (forall k :: 0 <= k < |gaps| ==> IsGap(gaps[k])) && input == Spread(texts, gaps)
  }

  /** The answer is the shortest spelling of v. */
  predicate Answers(r: Result<string, EvalError>, v: int) {
    r.Success? && IsLiteral(r.value) && (r.value[0] == '1' || r.value == "0") && Value(r.value) == v
  }

  predicate IsFloor(q: int, a: int, b: int) {
    if b > 0 then q * b <= a < q * b + b else q * b + b < a <= q * b
  }

  /** What one and two operators mean, for every literal and any spacing. */
  ghost predicate AnswersSmallLines(input: string, r: Result<string, EvalError>) {
    && (forall x :: IsLiteral(x) && Reads(input, [x]) ==> Answers(r, Value(x)))
    && (forall x :: IsLiteral(x) && Reads(input, ["-", x]) ==> Answers(r, -Value(x)))
    && (forall x :: IsLiteral(x) && Reads(input, ["(", x, ")"]) ==> Answers(r, Value(x)))
    && (forall x, y :: IsLiteral(x) && IsLiteral(y) && Reads(input, [x, "+", y]) ==> Answers(r, Value(x) + Value(y)))
    && (forall x, y :: IsLiteral(x) && IsLiteral(y) && Reads(input, [x, "-", y]) ==> Answers(r, Value(x) - Value(y)))
    && (forall x, y :: IsLiteral(x) && IsLiteral(y) && Reads(input, [x, "*", y]) ==> Answers(r, Value(x) * Value(y)))
    && (forall x, y :: IsLiteral(x) && IsLiteral(y) && Reads(input, [x, "/", y]) ==> AnswersQuotient(r, Value(x), Value(y)))
    && AnswersTwoOperators(input, r)
  }

  /** The quotient rounded down, or the error, exactly for a zero divisor. */
  ghost predicate AnswersQuotient(r: Result<string, EvalError>, a: int, b: int) {
    if b == 0 then r == Failure(DivisionByZero) else exists q :: IsFloor(q, a, b) && Answers(r, q)
  }

  /** Products before sums, both from the left; unary minus first; parentheses before all. */
  ghost predicate AnswersTwoOperators(input: string, r: Result<string, EvalError>) {
    forall x, y, z :: IsLiteral(x) && IsLiteral(y) && IsLiteral(z) ==> AnswersThree(input, r, x, y, z)
  }

  ghost predicate AnswersThree(input: string, r: Result<string, EvalError>, x: string, y: string, z: string) {
    var (a, b, c) := (Value(x), Value(y), Value(z));
    && (Reads(input, [x, "-", y, "-", z]) ==> Answers(r, a - b - c))
    && (Reads(input, [x, "+", y, "*", z]) ==> Answers(r, a + b * c))
    && (Reads(input, [x, "*", y, "+", z]) ==> Answers(r, a * b + c))
    && (Reads(input, ["-", x, "-", y]) ==> Answers(r, -a - b))
    && (Reads(input, [x, "-", "-", y]) ==> Answers(r, a + b))
    && (Reads(input, ["(", x, "+", y, ")", "*", z]) ==> Answers(r, (a + b) * c))
    && (Reads(input, [x, "-", "(", y, "-", z, ")"]) ==> Answers(r, a - (b - c)))
    && (b != 0 && Reads(input, [x, "/", y, "*", z]) ==> exists q :: IsFloor(q, a, b) && Answers(r, q * c))
  }

  function TextsOf(toks: seq<Token>): seq<string> { seq(|toks|, k requires 0 <= k < |toks| => Text(toks[k])) }

  lemma {:induction false} SpreadIsLayout(toks: seq<Token>, gaps: seq<string>)
    requires |gaps| == |toks| + 1
    ensures Spread(TextsOf(toks), gaps) == Layout(toks, gaps)
  {
    if toks != [] {
      SpreadIsLayout(toks[1..], gaps[1..]);
      assert TextsOf(toks)[1..] == TextsOf(toks[1..]);
    }
  }

  /** A line that reads as the texts of a printing is that printing, when no two literals meet. */
  lemma ReadsAsPrinting(input: string, t: Printing, texts: seq<string>)
    requires Grammatical(t) && WellFormedTokens(Yield(t)) && texts == TextsOf(Yield(t)) && Reads(input, texts)
    requires forall k :: 0 < k < |Yield(t)| ==> !(Yield(t)[k - 1].Num? && Yield(t)[k].Num?)
    ensures Prints(input, t)
  {
    var gaps :| |gaps| == |texts| + 1 && (forall k :: 0 <= k < |gaps| ==> IsGap(gaps[k])) && input == Spread(texts, gaps);
    SpreadIsLayout(Yield(t), gaps);
    assert SpelledWith(input, Yield(t), gaps);
  }

  lemma AnswerIsValue(t: Printing, v: int, r: Result<string, EvalError>)
    requires Outcome(t) == Some(v) && r == Answer(t)
    ensures Answers(r, v)
  {
    ReadAfterWrite(v);
  }

  /** t is a printing with these tokens, this rank and this outcome. */
  ghost predicate Says(t: Printing, rank: nat, toks: seq<Token>, v: Option<int>) {
    Grammatical(t) && Rank(t) == rank && Yield(t) == toks && Outcome(t) == v
  }

  lemma SaysLiteral(x: string)
    requires IsLiteral(x)
    ensures Says(Literal(x), 3, [Num(x)], Some(Value(x)))
  {
  }

  lemma SaysMinus(t: Printing, rank: nat, toks: seq<Token>, v: int)
    requires rank >= 2 && Says(t, rank, toks, Some(v))
    ensures Says(Minus(t), 2, [Op('-')] + toks, Some(-v))
  {
  }

  lemma SaysGroup(t: Printing, rank: nat, toks: seq<Token>, v: int)
    requires Says(t, rank, toks, Some(v))
    ensures Says(Group(t), 3, [LParen] + toks + [RParen], Some(v))
  {
  }

  lemma SaysInfix(op: char, l: Printing, r: Printing, lrank: nat, rrank: nat, left: seq<Token>, right: seq<Token>, a: int, b: int)
    requires IsOperator(op) && Says(l, lrank, left, Some(a)) && Says(r, rrank, right, Some(b))
    requires var rank := if op == '*' || op == '/' then 1 else 0; lrank >= rank && rrank > rank
    ensures Says(Infix(op, l, r), if op == '*' || op == '/' then 1 else 0, left + [Op(op)] + right, Apply(op, a, b))
  {
  }

  /** A line that reads as the yield of a printing has that printing's answer. */
  lemma Told(input: string, r: Result<string, EvalError>, t: Printing, rank: nat, toks: seq<Token>, texts: seq<string>, v: Option<int>)
    requires AsPrinted(input, r) && Says(t, rank, toks, v) && texts == TextsOf(toks)
    requires forall k :: 0 <= k < |toks| ==> WellFormedToken(toks[k])
    requires forall k :: 0 < k < |toks| ==> !(toks[k - 1].Num? && toks[k].Num?)
    ensures Reads(input, texts) && v.Some? ==> Answers(r, v.value)
    ensures Reads(input, texts) && v.None? ==> r == Failure(DivisionByZero)
  {
    if Reads(input, texts) {
      ReadsAsPrinting(input, t, texts);
      if v.Some? { AnswerIsValue(t, v.value, r); }
    }
  }

  lemma LiteralLine(input: string, r: Result<string, EvalError>, x: string)
    requires AsPrinted(input, r) && IsLiteral(x)
    ensures Reads(input, [x]) ==> Answers(r, Value(x))
    ensures Reads(input, ["-", x]) ==> Answers(r, -Value(x))
    ensures Reads(input, ["(", x, ")"]) ==> Answers(r, Value(x))
  {
    hide Reads;
    hide Answers;
    hide AsPrinted;
    hide Says;
    hide Value;
    hide FloorDiv;
    SaysLiteral(x);
    SaysMinus(Literal(x), 3, [Num(x)], Value(x));
    SaysGroup(Literal(x), 3, [Num(x)], Value(x));
    assert [Op('-')] + [Num(x)] == [Op('-'), Num(x)];
    assert [LParen] + [Num(x)] + [RParen] == [LParen, Num(x), RParen];
    Told(input, r, Literal(x), 3, [Num(x)], [x], Some(Value(x)));
    Told(input, r, Minus(Literal(x)), 2, [Op('-'), Num(x)], ["-", x], Some(-Value(x)));
    Told(input, r, Group(Literal(x)), 3, [LParen, Num(x), RParen], ["(", x, ")"], Some(Value(x)));
  }

  lemma OperatorLine(input: string, r: Result<string, EvalError>, x: string, op: char, y: string)
    requires AsPrinted(input, r) && IsLiteral(x) && IsLiteral(y) && IsOperator(op)
    ensures Reads(input, [x, [op], y]) ==>
              if op == '+' then Answers(r, Value(x) + Value(y))
              else if op == '-' then Answers(r, Value(x) - Value(y))
              else if op == '*' then Answers(r, Value(x) * Value(y))
              else AnswersQuotient(r, Value(x), Value(y))
  {
    hide Reads;
    hide Answers;
    hide AsPrinted;
    hide Says;
    hide Value;
    hide FloorDiv;
    SaysLiteral(x);
    SaysLiteral(y);
    SaysInfix(op, Literal(x), Literal(y), 3, 3, [Num(x)], [Num(y)], Value(x), Value(y));
    var toks := [Num(x), Op(op), Num(y)];
    assert [Num(x)] + [Op(op)] + [Num(y)] == toks;
    Told(input, r, Infix(op, Literal(x), Literal(y)), if op == '*' || op == '/' then 1 else 0, toks, [x, [op], y], Apply(op, Value(x), Value(y)));
    if op == '/' && Value(y) != 0 {
      assert IsFloor(FloorDiv(Value(x), Value(y)), Value(x), Value(y));
    }
  }

  lemma SumsFromTheLeft(input: string, r: Result<string, EvalError>, x: string, y: string, z: string)
    requires AsPrinted(input, r) && IsLiteral(x) && IsLiteral(y) && IsLiteral(z)
    ensures Reads(input, [x, "-", y, "-", z]) ==> Answers(r, Value(x) - Value(y) - Value(z))
  {
    hide Reads;
    hide Answers;
    hide AsPrinted;
    hide Says;
    hide Value;
    hide FloorDiv;
    SaysLiteral(x);
    SaysLiteral(y);
    SaysInfix('-', Literal(x), Literal(y), 3, 3, [Num(x)], [Num(y)], Value(x), Value(y));
    assert [Num(x)] + [Op('-')] + [Num(y)] == [Num(x), Op('-'), Num(y)];
    SaysLiteral(z);
    SaysInfix('-', Infix('-', Literal(x), Literal(y)), Literal(z), 0, 3, [Num(x), Op('-'), Num(y)], [Num(z)], (Value(x) - Value(y)), Value(z));
    assert [Num(x), Op('-'), Num(y)] + [Op('-')] + [Num(z)] == [Num(x), Op('-'), Num(y), Op('-'), Num(z)];
    Told(input, r, Infix('-', Infix('-', Literal(x), Literal(y)), Literal(z)), 0, [Num(x), Op('-'), Num(y), Op('-'), Num(z)], [x, "-", y, "-", z], Some(((Value(x) - Value(y)) - Value(z))));
  }

  lemma ProductsFromTheLeft(input: string, r: Result<string, EvalError>, x: string, y: string, z: string)
    requires AsPrinted(input, r) && IsLiteral(x) && IsLiteral(y) && IsLiteral(z)
    ensures Value(y) != 0 && Reads(input, [x, "/", y, "*", z]) ==>
              exists q :: IsFloor(q, Value(x), Value(y)) && Answers(r, q * Value(z))
  {
    hide Reads;
    hide Answers;
    hide AsPrinted;
    hide Says;
    hide Value;
    hide FloorDiv;
    if Value(y) == 0 { return; }
    SaysLiteral(x);
    SaysLiteral(y);
    SaysInfix('/', Literal(x), Literal(y), 3, 3, [Num(x)], [Num(y)], Value(x), Value(y));
    assert [Num(x)] + [Op('/')] + [Num(y)] == [Num(x), Op('/'), Num(y)];
    SaysLiteral(z);
    SaysInfix('*', Infix('/', Literal(x), Literal(y)), Literal(z), 1, 3, [Num(x), Op('/'), Num(y)], [Num(z)], FloorDiv(Value(x), Value(y)), Value(z));
    assert [Num(x), Op('/'), Num(y)] + [Op('*')] + [Num(z)] == [Num(x), Op('/'), Num(y), Op('*'), Num(z)];
    Told(input, r, Infix('*', Infix('/', Literal(x), Literal(y)), Literal(z)), 1, [Num(x), Op('/'), Num(y), Op('*'), Num(z)], [x, "/", y, "*", z], Some((FloorDiv(Value(x), Value(y)) * Value(z))));
    assert IsFloor(FloorDiv(Value(x), Value(y)), Value(x), Value(y));
  }

  lemma ProductOnTheRight(input: string, r: Result<string, EvalError>, x: string, y: string, z: string)
    requires AsPrinted(input, r) && IsLiteral(x) && IsLiteral(y) && IsLiteral(z)
    ensures Reads(input, [x, "+", y, "*", z]) ==> Answers(r, Value(x) + Value(y) * Value(z))
  {
    hide Reads;
    hide Answers;
    hide AsPrinted;
    hide Says;
    hide Value;
    hide FloorDiv;
    SaysLiteral(x);
    SaysLiteral(y);
    SaysLiteral(z);
    SaysInfix('*', Literal(y), Literal(z), 3, 3, [Num(y)], [Num(z)], Value(y), Value(z));
    assert [Num(y)] + [Op('*')] + [Num(z)] == [Num(y), Op('*'), Num(z)];
    SaysInfix('+', Literal(x), Infix('*', Literal(y), Literal(z)), 3, 1, [Num(x)], [Num(y), Op('*'), Num(z)], Value(x), (Value(y) * Value(z)));
    assert [Num(x)] + [Op('+')] + [Num(y), Op('*'), Num(z)] == [Num(x), Op('+'), Num(y), Op('*'), Num(z)];
    Told(input, r, Infix('+', Literal(x), Infix('*', Literal(y), Literal(z))), 0, [Num(x), Op('+'), Num(y), Op('*'), Num(z)], [x, "+", y, "*", z], Some((Value(x) + (Value(y) * Value(z)))));
  }

  lemma ProductOnTheLeft(input: string, r: Result<string, EvalError>, x: string, y: string, z: string)
    requires AsPrinted(input, r) && IsLiteral(x) && IsLiteral(y) && IsLiteral(z)
    ensures Reads(input, [x, "*", y, "+", z]) ==> Answers(r, Value(x) * Value(y) + Value(z))
  {
    hide Reads;
    hide Answers;
    hide AsPrinted;
    hide Says;
    hide Value;
    hide FloorDiv;
    SaysLiteral(x);
    SaysLiteral(y);
    SaysInfix('*', Literal(x), Literal(y), 3, 3, [Num(x)], [Num(y)], Value(x), Value(y));
    assert [Num(x)] + [Op('*')] + [Num(y)] == [Num(x), Op('*'), Num(y)];
    SaysLiteral(z);
    SaysInfix('+', Infix('*', Literal(x), Literal(y)), Literal(z), 1, 3, [Num(x), Op('*'), Num(y)], [Num(z)], (Value(x) * Value(y)), Value(z));
    assert [Num(x), Op('*'), Num(y)] + [Op('+')] + [Num(z)] == [Num(x), Op('*'), Num(y), Op('+'), Num(z)];
    Told(input, r, Infix('+', Infix('*', Literal(x), Literal(y)), Literal(z)), 0, [Num(x), Op('*'), Num(y), Op('+'), Num(z)], [x, "*", y, "+", z], Some(((Value(x) * Value(y)) + Value(z))));
  }

  lemma MinusLines(input: string, r: Result<string, EvalError>, x: string, y: string)
    requires AsPrinted(input, r) && IsLiteral(x) && IsLiteral(y)
    ensures Reads(input, ["-", x, "-", y]) ==> Answers(r, -Value(x) - Value(y))
    ensures Reads(input, [x, "-", "-", y]) ==> Answers(r, Value(x) + Value(y))
  {
    hide Reads;
    hide Answers;
    hide AsPrinted;
    hide Says;
    hide Value;
    hide FloorDiv;
    SaysLiteral(x);
    SaysMinus(Literal(x), 3, [Num(x)], Value(x));
    assert [Op('-')] + [Num(x)] == [Op('-'), Num(x)];
    SaysLiteral(y);
    SaysInfix('-', Minus(Literal(x)), Literal(y), 2, 3, [Op('-'), Num(x)], [Num(y)], -Value(x), Value(y));
    assert [Op('-'), Num(x)] + [Op('-')] + [Num(y)] == [Op('-'), Num(x), Op('-'), Num(y)];
    Told(input, r, Infix('-', Minus(Literal(x)), Literal(y)), 0, [Op('-'), Num(x), Op('-'), Num(y)], ["-", x, "-", y], Some((-Value(x) - Value(y))));
    SaysMinus(Literal(y), 3, [Num(y)], Value(y));
    assert [Op('-')] + [Num(y)] == [Op('-'), Num(y)];
    SaysInfix('-', Literal(x), Minus(Literal(y)), 3, 2, [Num(x)], [Op('-'), Num(y)], Value(x), -Value(y));
    assert [Num(x)] + [Op('-')] + [Op('-'), Num(y)] == [Num(x), Op('-'), Op('-'), Num(y)];
    Told(input, r, Infix('-', Literal(x), Minus(Literal(y))), 0, [Num(x), Op('-'), Op('-'), Num(y)], [x, "-", "-", y], Some((Value(x) - -Value(y))));
  }

  lemma GroupInFront(input: string, r: Result<string, EvalError>, x: string, y: string, z: string)
    requires AsPrinted(input, r) && IsLiteral(x) && IsLiteral(y) && IsLiteral(z)
    ensures Reads(input, ["(", x, "+", y, ")", "*", z]) ==> Answers(r, (Value(x) + Value(y)) * Value(z))
  {
    hide Reads;
    hide Answers;
    hide AsPrinted;
    hide Says;
    hide Value;
    hide FloorDiv;
    SaysLiteral(x);
    SaysLiteral(y);
    SaysInfix('+', Literal(x), Literal(y), 3, 3, [Num(x)], [Num(y)], Value(x), Value(y));
    assert [Num(x)] + [Op('+')] + [Num(y)] == [Num(x), Op('+'), Num(y)];
    SaysGroup(Infix('+', Literal(x), Literal(y)), 0, [Num(x), Op('+'), Num(y)], (Value(x) + Value(y)));
    assert [LParen] + [Num(x), Op('+'), Num(y)] + [RParen] == [LParen, Num(x), Op('+'), Num(y), RParen];
    SaysLiteral(z);
    SaysInfix('*', Group(Infix('+', Literal(x), Literal(y))), Literal(z), 3, 3, [LParen, Num(x), Op('+'), Num(y), RParen], [Num(z)], (Value(x) + Value(y)), Value(z));
    assert [LParen, Num(x), Op('+'), Num(y), RParen] + [Op('*')] + [Num(z)] == [LParen, Num(x), Op('+'), Num(y), RParen, Op('*'), Num(z)];
    Told(input, r, Infix('*', Group(Infix('+', Literal(x), Literal(y))), Literal(z)), 1, [LParen, Num(x), Op('+'), Num(y), RParen, Op('*'), Num(z)], ["(", x, "+", y, ")", "*", z], Some(((Value(x) + Value(y)) * Value(z))));
  }

  lemma GroupBehind(input: string, r: Result<string, EvalError>, x: string, y: string, z: string)
    requires AsPrinted(input, r) && IsLiteral(x) && IsLiteral(y) && IsLiteral(z)
    ensures Reads(input, [x, "-", "(", y, "-", z, ")"]) ==> Answers(r, Value(x) - (Value(y) - Value(z)))
  {
    hide Reads;
    hide Answers;
    hide AsPrinted;
    hide Says;
    hide Value;
    hide FloorDiv;
    SaysLiteral(x);
    SaysLiteral(y);
    SaysLiteral(z);
    SaysInfix('-', Literal(y), Literal(z), 3, 3, [Num(y)], [Num(z)], Value(y), Value(z));
    assert [Num(y)] + [Op('-')] + [Num(z)] == [Num(y), Op('-'), Num(z)];
    SaysGroup(Infix('-', Literal(y), Literal(z)), 0, [Num(y), Op('-'), Num(z)], (Value(y) - Value(z)));
    assert [LParen] + [Num(y), Op('-'), Num(z)] + [RParen] == [LParen, Num(y), Op('-'), Num(z), RParen];
    SaysInfix('-', Literal(x), Group(Infix('-', Literal(y), Literal(z))), 3, 3, [Num(x)], [LParen, Num(y), Op('-'), Num(z), RParen], Value(x), (Value(y) - Value(z)));
    assert [Num(x)] + [Op('-')] + [LParen, Num(y), Op('-'), Num(z), RParen] == [Num(x), Op('-'), LParen, Num(y), Op('-'), Num(z), RParen];
    Told(input, r, Infix('-', Literal(x), Group(Infix('-', Literal(y), Literal(z)))), 0, [Num(x), Op('-'), LParen, Num(y), Op('-'), Num(z), RParen], [x, "-", "(", y, "-", z, ")"], Some((Value(x) - (Value(y) - Value(z)))));
  }

  lemma SmallLinesFollow(input: string, r: Result<string, EvalError>)
    requires AsPrinted(input, r)
    ensures AnswersSmallLines(input, r)
  {
    hide Reads;
    hide Answers;
    hide AsPrinted;
    hide Value;
    hide FloorDiv;
    forall x | IsLiteral(x)
      ensures Reads(input, [x]) ==> Answers(r, Value(x))
      ensures Reads(input, ["-", x]) ==> Answers(r, -Value(x))
      ensures Reads(input, ["(", x, ")"]) ==> Answers(r, Value(x))
    {
      LiteralLine(input, r, x);
    }
    forall x, y | IsLiteral(x) && IsLiteral(y)
      ensures Reads(input, [x, "+", y]) ==> Answers(r, Value(x) + Value(y))
      ensures Reads(input, [x, "-", y]) ==> Answers(r, Value(x) - Value(y))
      ensures Reads(input, [x, "*", y]) ==> Answers(r, Value(x) * Value(y))
      ensures Reads(input, [x, "/", y]) ==> AnswersQuotient(r, Value(x), Value(y))
    {
      OperatorLine(input, r, x, '+', y);
      OperatorLine(input, r, x, '-', y);
      OperatorLine(input, r, x, '*', y);
      OperatorLine(input, r, x, '/', y);
    }
    TwoOperatorsFollow(input, r);
  }

  lemma TwoOperatorsFollow(input: string, r: Result<string, EvalError>)
    requires AsPrinted(input, r)
    ensures AnswersTwoOperators(input, r)
  {
    hide Reads;
    hide Answers;
    hide AsPrinted;
    hide Value;
    hide FloorDiv;
    forall x, y, z | IsLiteral(x) && IsLiteral(y) && IsLiteral(z)
      ensures AnswersThree(input, r, x, y, z)
    {
      SumsFromTheLeft(input, r, x, y, z);
      ProductsFromTheLeft(input, r, x, y, z);
      ProductOnTheRight(input, r, x, y, z);
      ProductOnTheLeft(input, r, x, y, z);
      MinusLines(input, r, x, y);
      GroupInFront(input, r, x, y, z);
      GroupBehind(input, r, x, y, z);
    }
  }


  lemma PrintingsAreRead(input: string, toks: seq<Token>)
    requires forall ts :: Spells(input, ts) ==> ts == toks
    ensures forall t :: Prints(input, t) ==>
              Expr(toks, 0) == match Outcome(t) case Some(v) => Ok(v, |toks|) case None => Bad(DivisionByZero)
  {
    hide Spells;
    hide Grammatical;
    hide Expr;
    forall t | Prints(input, t)
      ensures Expr(toks, 0) == match Outcome(t) case Some(v) => Ok(v, |toks|) case None => Bad(DivisionByZero)
    {
      assert Yield(t) == toks;
      WholeReads(t);
    }
  }

  lemma WholeReads(t: Printing)
    requires Grammatical(t)
    ensures var toks := Yield(t);
            Expr(toks, 0) == match Outcome(t) case Some(v) => Ok(v, |toks|) case None => Bad(DivisionByZero)
  {
    hide Expr;
    hide Yield;
    hide Grammatical;
    var toks := Yield(t);
    assert toks[0..|toks|] == toks;
    ExprReads(toks, 0, t);
    if Outcome(t).Some? { ExprTailUnfolds(toks, |toks|, Outcome(t).value); }
  }

  lemma {:induction false} ScannedIsLegal(input: string, i: nat)
    requires i <= |input| && Scan(input, i).Success?
    ensures forall k :: i <= k < |input| ==> IsLegal(input[k])
    decreases |input| - i
  {
    if i < |input| {
      var j := if IsDigit(input[i]) then DigitRunEnd(input, i) else i + 1;
      assert forall k :: i <= k < j ==> input[k] == input[i..j][k - i];
      ScannedIsLegal(input, j);
    }
  }

  /** Two printings of one line stand for expressions of the same value. */
  lemma LineHasOneAnswer(input: string, t: Printing, u: Printing)
    requires Prints(input, t) && Prints(input, u)
    ensures Outcome(t) == Outcome(u)
  {
    ScanCharacterisesSpelling(input);
    var toks := Yield(t);
    assert Yield(u) == toks;
    assert toks[0..|toks|] == toks;
    ExprReads(toks, 0, t);
    ExprReads(toks, 0, u);
  }
}
