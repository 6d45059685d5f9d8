/** `calculate` (src/calc/mod.rs:25-28): the text is lexed, put in prefix
    order by `lispify`, parsed by the one-argument `parse` of
    src/calc/parser.rs and evaluated.

    The older parser reads infix input. A leading `+` or `-` is a sign
    there, and a sign takes one operand. So on lispify's prefix output
    `- x y` it builds `Minus(y)` above the fragment `x`. It then returns
    the topmost fragment and drops `x`, so the chain turns `x - y` into
    `-y`. A leading `*` or `/` is pushed as an operator, so those
    operators come out right. */
module Calculator {
  import opened Wrappers
  import opened Tokens
  import opened Syntax
  import Lexer
  import Lisp
  import Parser
  import LegacyParser
  import Calc
  import Kipac

  /** The stage of `calculate` that failed. */
  datatype CalcError =
    | LexFailed(lex: Lexer.LexError)
    | LispFailed(lisp: Lisp.LispError)
    | ParseFailed(parse: LegacyParser.LegacyError)
    | EvalFailed(eval: Calc.EvalError)

  /** `calculate` from the tokens on. */
  function CalculateTokens(ts: seq<Token>, m: Calc.Math): Result<Calc.Value, CalcError> {
    match Lisp.Lispify(ts)
    case Err(e) => Err(LispFailed(e))
    case Ok(prefix) =>
      match LegacyParser.Parse(prefix)
      case Err(e) => Err(ParseFailed(e))
      case Ok(tree) =>
        match Calc.Eval(tree, m)
        case Err(e) => Err(EvalFailed(e))
        case Ok(v) => Ok(v)
  }

  /** `calculate`, with the number grammar `num`. */
  function Calculate(s: seq<char>, num: Lexer.NumberParser, m: Calc.Math): Result<Calc.Value, CalcError> {
    match Lexer.Lex(s, num)
    case Err(e) => Err(LexFailed(e))
    case Ok(ts) => CalculateTokens(ts, m)
  }

  predicate IsBasicArithmetic(t: Token) {
    t.Add? || t.Sub? || t.Mul? || t.Div?
  }

  /** What the older parser pushes for a leading operator. */
  function Leading(t: Token): Token {
    if t.Add? then Token.Plus else if t.Sub? then Token.Minus else t
  }

  // ---- the three stages on `x t y` ----

  /** Through `calculate`, `x + y` and `x - y` lose `x`: lispify puts
      the operator first, the older parser makes it a sign over `y`
      alone, and the result is `y` or `-y`. */
  lemma AdditiveThroughLispify(x: real, t: Token, y: real, m: Calc.Math)
    requires t.Add? || t.Sub?
    ensures Lisp.Lispify([Token.Num(x), t, Token.Num(y)]) == Ok([t, Token.Num(x), Token.Num(y)])
    ensures LegacyParser.Parse([t, Token.Num(x), Token.Num(y)])
         == Ok(Node([Leaf(y)], if t.Add? then Fun.Plus else Fun.Minus))
    ensures CalculateTokens([Token.Num(x), t, Token.Num(y)], m) == Ok(Calc.Num(if t.Add? then y else -y))
  {
    var f := if t.Add? then Fun.Plus else Fun.Minus;
    Lisp.InfixPairExample(x, t, y);
    PrefixParse(x, t, y);
    LeadingFun(t);
    SignValue(y, f, m);
    Stages([Token.Num(x), t, Token.Num(y)], [t, Token.Num(x), Token.Num(y)], Node([Leaf(y)], f), m);
  }

  /** `calculate` of tokens whose lispify and parse succeed is the value
      of the tree. */
  lemma Stages(ts: seq<Token>, prefix: seq<Token>, tree: Ast, m: Calc.Math)
    requires Lisp.Lispify(ts) == Ok(prefix) && LegacyParser.Parse(prefix) == Ok(tree)
    ensures Calc.Eval(tree, m).Ok? ==> CalculateTokens(ts, m) == Ok(Calc.Eval(tree, m).value)
    ensures Calc.Eval(tree, m).Err? ==> CalculateTokens(ts, m) == Err(EvalFailed(Calc.Eval(tree, m).error))
  {
  }

  lemma LeadingFun(t: Token)
    requires t.Add? || t.Sub?
    ensures LegacyParser.LegacyFun(Leading(t)) == if t.Add? then Fun.Plus else Fun.Minus
  {
  }

  lemma SignValue(y: real, f: Fun, m: Calc.Math)
    requires f.Plus? || f.Minus?
    ensures Calc.Eval(Node([Leaf(y)], f), m) == Ok(Calc.Num(if f.Plus? then y else -y))
  {
    Calc.EvalNode([Leaf(y)], f, [y], m);
    Calc.Signs([y], m);
  }

  /** `*` and `/` survive `calculate`: the prefix tokens parse to the
      same tree as the infix ones, so the result is `x * y` or `x / y`,
      and dividing by zero is an evaluation error. */
  lemma MultiplicativeThroughLispify(x: real, t: Token, y: real, m: Calc.Math)
    requires t.Mul? || t.Div?
    ensures Lisp.Lispify([Token.Num(x), t, Token.Num(y)]) == Ok([t, Token.Num(x), Token.Num(y)])
    ensures LegacyParser.Parse([t, Token.Num(x), Token.Num(y)]) == LegacyParser.Parse([Token.Num(x), t, Token.Num(y)])
    ensures t.Mul? ==> CalculateTokens([Token.Num(x), t, Token.Num(y)], m) == Ok(Calc.Num(x * y))
    ensures t.Div? && y != 0.0 ==> CalculateTokens([Token.Num(x), t, Token.Num(y)], m) == Ok(Calc.Num(x / y))
    ensures t.Div? && y == 0.0 ==> CalculateTokens([Token.Num(x), t, Token.Num(y)], m).Err?
  {
    var tree := Node([Leaf(y), Leaf(x)], LegacyParser.LegacyFun(t));
    Lisp.InfixPairExample(x, t, y);
    PrefixParse(x, t, y);
    InfixParse(x, t, y);
    InfixValue(x, t, y, m);
    Stages([Token.Num(x), t, Token.Num(y)], [t, Token.Num(x), Token.Num(y)], tree, m);
  }

  /** Without lispify, the older parser reads `x t y` as the binary node
      with its operands in pop order, which evaluates to `x t y`. */
  lemma InfixValue(x: real, t: Token, y: real, m: Calc.Math)
    requires IsBasicArithmetic(t)
    ensures var r := Calc.Eval(Node([Leaf(y), Leaf(x)], LegacyParser.LegacyFun(t)), m);
      && (t.Add? ==> r == Ok(Calc.Num(x + y)))
      && (t.Sub? ==> r == Ok(Calc.Num(x - y)))
      && (t.Mul? ==> r == Ok(Calc.Num(x * y)))
      && (t.Div? && y != 0.0 ==> r == Ok(Calc.Num(x / y)))
      && (t.Div? && y == 0.0 ==> r.Err?)
  {
    if t.Add? {
      SumValue(x, y, m);
    } else if t.Sub? {
      Calc.SubtractsFirstFromSecond(y, x, m);
    } else if t.Mul? {
      ProductValue(x, y, m);
    } else {
      QuotientValue(x, y, m);
    }
  }

  lemma SumValue(x: real, y: real, m: Calc.Math)
    ensures Calc.Eval(Node([Leaf(y), Leaf(x)], Fun.Add), m) == Ok(Calc.Num(x + y))
  {
    Calc.EvalNode([Leaf(y), Leaf(x)], Fun.Add, [y, x], m);
    Calc.AddIsSum([y, x], m);
    assert Kipac.Sum([x]) == x by {
      assert [x][1..] == [];
    }
    assert Kipac.Sum([y, x]) == y + x by {
      assert [y, x][1..] == [x];
    }
  }

  lemma ProductValue(x: real, y: real, m: Calc.Math)
    ensures Calc.Eval(Node([Leaf(y), Leaf(x)], Fun.Mul), m) == Ok(Calc.Num(x * y))
  {
    Calc.EvalNode([Leaf(y), Leaf(x)], Fun.Mul, [y, x], m);
    ProductApplied(x, y, m);
    OkOfValue(Calc.Apply(Fun.Mul, [y, x], m));
  }

  lemma ProductApplied(x: real, y: real, m: Calc.Math)
    ensures Calc.Apply(Fun.Mul, [y, x], m).Ok?
    ensures Calc.Apply(Fun.Mul, [y, x], m).value == x * y
  {
    Calc.ApplyArithmetic(Fun.Mul, [y, x], m);
    ArithmeticProduct(x, y, m);
    Commutes(x, y);
  }

  lemma ArithmeticProduct(x: real, y: real, m: Calc.Math)
    ensures Calc.Arithmetic(Fun.Mul, [y, x], m).Ok?
    ensures Calc.Arithmetic(Fun.Mul, [y, x], m).value == y * x
  {
  }

  lemma Commutes(x: real, y: real)
    ensures y * x == x * y
  {
  }

  lemma OkOfValue(r: Result<real, Calc.EvalError>)
    requires r.Ok?
    ensures r == Ok(r.value)
  {
  }

  lemma QuotientValue(x: real, y: real, m: Calc.Math)
    ensures y != 0.0 ==> Calc.Eval(Node([Leaf(y), Leaf(x)], Fun.Div), m) == Ok(Calc.Num(x / y))
    ensures y == 0.0 ==> Calc.Eval(Node([Leaf(y), Leaf(x)], Fun.Div), m).Err?
  {
    Calc.EvalNode([Leaf(y), Leaf(x)], Fun.Div, [y, x], m);
    Calc.OperandOrder([y, x], m);
  }

  /** test_sub (src/calc/mod.rs:92-96) as the chain is written: `12-2`
      gives `-2`; the older parser alone, on the infix tokens, gives the
      10 the test expects. */
  lemma SubtractionTest(num: Lexer.NumberParser, m: Calc.Math)
    requires ReadsTwelveAndTwo(num)
    ensures Calculate("12-2", num, m) == Ok(Calc.Num(-2.0))
    ensures LegacyParser.Parse([Token.Num(12.0), Token.Sub, Token.Num(2.0)]) == Ok(Node([Leaf(2.0), Leaf(12.0)], Fun.Sub))
    ensures Calc.Eval(Node([Leaf(2.0), Leaf(12.0)], Fun.Sub), m) == Ok(Calc.Num(10.0))
  {
    LexSubtraction(num);
    SubtractionChain("12-2", num, m, 12.0, 2.0);
  }

  /** Any text that lexes to `x - y`: `calculate` gives `-y`, the older
      parser on the infix tokens `x - y`. */
  lemma SubtractionChain(s: seq<char>, num: Lexer.NumberParser, m: Calc.Math, x: real, y: real)
    requires Lexer.Lex(s, num) == Ok([Token.Num(x), Token.Sub, Token.Num(y)])
    ensures Calculate(s, num, m) == Ok(Calc.Num(-y))
    ensures LegacyParser.Parse([Token.Num(x), Token.Sub, Token.Num(y)]) == Ok(Node([Leaf(y), Leaf(x)], Fun.Sub))
    ensures Calc.Eval(Node([Leaf(y), Leaf(x)], Fun.Sub), m) == Ok(Calc.Num(x - y))
  {
    LexedThen(s, num, m, [Token.Num(x), Token.Sub, Token.Num(y)]);
    AdditiveThroughLispify(x, Token.Sub, y, m);
    InfixParse(x, Token.Sub, y);
    InfixValue(x, Token.Sub, y, m);
  }

  lemma LexedThen(s: seq<char>, num: Lexer.NumberParser, m: Calc.Math, ts: seq<Token>)
    requires Lexer.Lex(s, num) == Ok(ts)
    ensures Calculate(s, num, m) == CalculateTokens(ts, m)
  {
  }

  /** A number grammar that reads `12` and `2` as Rust does. */
  predicate ReadsTwelveAndTwo(num: Lexer.NumberParser) {
    num("12") == Some(12.0) && num("2") == Some(2.0)
  }

  lemma DecimalReadsTwelveAndTwo()
    ensures ReadsTwelveAndTwo(Lexer.DecimalNumber)
  {
    var w: seq<char> := "12";
    assert Lexer.DigitLength(w[2..]) == 0;
    assert Lexer.DigitLength(w) == 2;
    assert w[..2] == w && w[2..] == [];
    assert Lexer.DigitsValue(w) == 12 by {
      assert w[..1] == "1" && w[..1][..0] == [];
    }
    Lexer.SingleDigit('2');
    assert ['2'] == "2";
  }

  lemma LexSubtraction(num: Lexer.NumberParser)
    requires ReadsTwelveAndTwo(num)
    ensures Lexer.Lex("12-2", num) == Ok([Token.Num(12.0), Token.Sub, Token.Num(2.0)])
  {
    var c := Lexer.Classification(num);
    var twelve, two: seq<char> := "12", "2";
    assert Lexer.Keyword(twelve).None? && Lexer.Keyword(two).None?;
    assert c(twelve) == Token.Num(12.0) && c(two) == Token.Num(2.0);
    assert Lexer.Symbol('-') == Some(Token.Sub);
    assert Lexer.IsWordChar(twelve[0]) && Lexer.IsWordChar(twelve[1]) && Lexer.IsWordChar(two[0]);
    UnspacedInfix(twelve, '-', two, c);
    assert twelve + ['-'] + two == "12-2";
  }

  /** Two words joined by a symbol with no blanks. */
  lemma UnspacedInfix(a: seq<char>, op: char, b: seq<char>, classify: Lexer.Classifier)
    requires |a| > 0 && forall i :: 0 <= i < |a| ==> Lexer.IsWordChar(a[i])
    requires |b| > 0 && forall i :: 0 <= i < |b| ==> Lexer.IsWordChar(b[i])
    requires Lexer.Symbol(op).Some? && !Lexer.IsWordChar(op)
    ensures Lexer.Scan(a + [op] + b, classify) == Ok([classify(a), Lexer.Symbol(op).value, classify(b)])
  {
    var r := [op] + b;
    Lexer.ScanOneWord(b, classify);
    Lexer.SymbolThen(op, b, [classify(b)], classify);
    Lexer.WordThen(a, r, [Lexer.Symbol(op).value] + [classify(b)], classify);
    assert a + [op] + b == a + r;
    assert [classify(a)] + ([Lexer.Symbol(op).value] + [classify(b)]) == [classify(a), Lexer.Symbol(op).value, classify(b)];
  }

  // ---- the older parser on three tokens ----

  /** The prefix tokens `t x y`: `Leading(t)` above `x` and `y`. */
  lemma PrefixParse(x: real, t: Token, y: real)
    requires IsBasicArithmetic(t)
    ensures LegacyParser.Parse([t, Token.Num(x), Token.Num(y)])
         == Ok(Node(if t.Add? || t.Sub? then [Leaf(y)] else [Leaf(y), Leaf(x)], LegacyParser.LegacyFun(Leading(t))))
  {
    LeadingStep(t);
    PrefixRun(x, t, y);
    FinishOne([t, Token.Num(x), Token.Num(y)], Leading(t), x, y);
  }

  /** The infix tokens `x t y`: `t` above `x` and `y`. */
  lemma InfixParse(x: real, t: Token, y: real)
    requires IsBasicArithmetic(t)
    ensures LegacyParser.Parse([Token.Num(x), t, Token.Num(y)])
         == Ok(Node([Leaf(y), Leaf(x)], LegacyParser.LegacyFun(t)))
  {
    InfixRun(x, t, y);
    FinishOne([Token.Num(x), t, Token.Num(y)], t, x, y);
  }

  /** The first token of the input, an operator: a sign for `+`/`-`. */
  lemma LeadingStep(t: Token)
    requires IsBasicArithmetic(t)
    ensures LegacyParser.Step(Parser.Initial, t) == Ok(Parser.State([t], [Leading(t)], [], []))
  {
    var st := Parser.Initial;
    if t.Add? || t.Sub? {
      assert !Parser.AfterValue(st);
      assert LegacyParser.Handle(st, t) == LegacyParser.HandleAdditive(st, t);
    } else {
      assert LegacyParser.Handle(st, t) == LegacyParser.HandleMultiplicative(st, t);
      assert LegacyParser.Unwind(st, Parser.AtAdditive, true) == Ok(st);
    }
    assert st.prev + [t] == [t] && st.opr + [Leading(t)] == [Leading(t)];
  }

  /** An operator after a number: binary, with nothing to reduce yet. */
  lemma AfterNumberStep(x: real, t: Token)
    requires IsBasicArithmetic(t)
    ensures LegacyParser.Step(Parser.State([Token.Num(x)], [], [Leaf(x)], []), t)
         == Ok(Parser.State([Token.Num(x), t], [t], [Leaf(x)], []))
  {
    var st := Parser.State([Token.Num(x)], [], [Leaf(x)], []);
    if t.Add? || t.Sub? {
      assert Parser.AfterValue(st);
      assert LegacyParser.Handle(st, t) == LegacyParser.HandleAdditive(st, t);
      assert LegacyParser.Unwind(st, Parser.AtParL, true) == Ok(st);
    } else {
      assert LegacyParser.Handle(st, t) == LegacyParser.HandleMultiplicative(st, t);
      assert LegacyParser.Unwind(st, Parser.AtAdditive, true) == Ok(st);
    }
    assert st.prev + [t] == [Token.Num(x), t] && st.opr + [t] == [t];
  }

  lemma PrefixRun(x: real, t: Token, y: real)
    requires IsBasicArithmetic(t)
    requires LegacyParser.Step(Parser.Initial, t) == Ok(Parser.State([t], [Leading(t)], [], []))
    ensures LegacyParser.Run(Parser.Initial, [t, Token.Num(x), Token.Num(y)])
         == Ok(Parser.State([t, Token.Num(x), Token.Num(y)], [Leading(t)], [Leaf(x), Leaf(y)], []))
  {
    var ts := [t, Token.Num(x), Token.Num(y)];
    var s1 := Parser.State([t], [Leading(t)], [], []);
    var s2 := Parser.State([t, Token.Num(x)], [Leading(t)], [Leaf(x)], []);
    var s3 := Parser.State(ts, [Leading(t)], [Leaf(x), Leaf(y)], []);
    LegacyParser.StepNum(s1, x);
    assert s1.prev + [Token.Num(x)] == s2.prev && s1.node + [Leaf(x)] == s2.node;
    LegacyParser.StepNum(s2, y);
    assert s2.prev + [Token.Num(y)] == ts && s2.node + [Leaf(y)] == s3.node;
    LegacyParser.RunStep(Parser.Initial, ts, s1);
    LegacyParser.RunStep(s1, ts[1..], s2);
    LegacyParser.RunStep(s2, ts[2..], s3);
    assert ts[3..] == [];
  }

  lemma InfixRun(x: real, t: Token, y: real)
    requires IsBasicArithmetic(t)
    ensures LegacyParser.Run(Parser.Initial, [Token.Num(x), t, Token.Num(y)])
         == Ok(Parser.State([Token.Num(x), t, Token.Num(y)], [t], [Leaf(x), Leaf(y)], []))
  {
    var ts := [Token.Num(x), t, Token.Num(y)];
    var s1 := Parser.State([Token.Num(x)], [], [Leaf(x)], []);
    var s2 := Parser.State([Token.Num(x), t], [t], [Leaf(x)], []);
    var s3 := Parser.State(ts, [t], [Leaf(x), Leaf(y)], []);
    LegacyParser.StepNum(Parser.Initial, x);
    assert [] + [Token.Num(x)] == [Token.Num(x)] && [] + [Leaf(x)] == [Leaf(x)];
    AfterNumberStep(x, t);
    LegacyParser.StepNum(s2, y);
    assert s2.prev + [Token.Num(y)] == ts && s2.node + [Leaf(y)] == s3.node;
    LegacyParser.RunStep(Parser.Initial, ts, s1);
    LegacyParser.RunStep(s1, ts[1..], s2);
    LegacyParser.RunStep(s2, ts[2..], s3);
    assert ts[3..] == [];
  }

  /** Draining one operator above two leaves: a sign takes the top leaf,
      a binary operator both in pop order; the result is the new top. */
  lemma FinishOne(prev: seq<Token>, o: Token, x: real, y: real)
    requires o.Plus? || o.Minus? || o.Add? || o.Sub? || o.Mul? || o.Div?
    ensures LegacyParser.Finish(Parser.State(prev, [o], [Leaf(x), Leaf(y)], []))
         == Ok(Node(if o.Plus? || o.Minus? then [Leaf(y)] else [Leaf(y), Leaf(x)], LegacyParser.LegacyFun(o)))
  {
    var st := Parser.State(prev, [o], [Leaf(x), Leaf(y)], []);
    var popped := st.(opr := []);
    var k := if o.Plus? || o.Minus? then 1 else 2;
    assert LegacyParser.LegacyArity(LegacyParser.LegacyFun(o)) == Some(k);
    LegacyParser.LegacyReduceFixed(popped, o, k);
    var cs := if k == 1 then [Leaf(y)] else [Leaf(y), Leaf(x)];
    assert LegacyParser.Reverse(popped.node[2 - k..]) == cs;
    var r := popped.(node := popped.node[..2 - k] + [Node(cs, LegacyParser.LegacyFun(o))]);
    assert LegacyParser.Unwind(st, Parser.Never, true) == Ok(r);
  }
}
