/** The tokenizer (src/calc/lexer.rs): one left-to-right scan that skips
    whitespace, turns each of `( ) [ ] + - * / ^ % ,` into one token and
    classifies every maximal run of alphanumeric characters and dots as a
    keyword, a number or an opaque variable path.

    The input is a sequence of characters (the source steps through UTF-8
    bytes). The number grammar is a parameter `num`; `DecimalNumber` is the
    instance used for the worked examples. */
module Lexer {
  import opened Wrappers
  import opened Tokens

  /** Why a scan cannot finish. `NoNextChar`: the input ends in whitespace,
      and the source then unwraps the next character of an empty suffix.
      `Stuck(c)`: `c` is neither whitespace, a symbol nor a word character,
      so the source reads an empty run and never advances. */
  datatype LexError = NoNextChar | Stuck(c: char)

  type NumberParser = seq<char> -> Option<real>

  /** `char::is_whitespace`, on code points up to U+00FF. */
  predicate IsBlank(c: char) {
    c == ' ' || '\t' <= c <= '\r' || c as int == 0x85 || c as int == 0xA0
  }

  /** `char::is_alphanumeric`, on code points up to U+00FF. */
  predicate IsAlphanumeric(c: char) {
    || 'a' <= c <= 'z' || 'A' <= c <= 'Z' || '0' <= c <= '9'
    || c as int == 0xAA || c as int == 0xB2 || c as int == 0xB3 || c as int == 0xB5
    || c as int == 0xB9 || c as int == 0xBA || 0xBC <= c as int <= 0xBE
    || 0xC0 <= c as int <= 0xD6 || 0xD8 <= c as int <= 0xF6 || 0xF8 <= c as int <= 0xFF
  }

  /** Characters `get_expr` collects into one run. */
  predicate IsWordChar(c: char) {
    IsAlphanumeric(c) || c == '.'
  }

  /** The one-character tokens. */
  function Symbol(c: char): Option<Token> {
    match c
    case '(' => Some(ParL)
    case ')' => Some(ParR)
    case '[' => Some(BrackL)
    case ']' => Some(BrackR)
    case '+' => Some(Add)
    case '-' => Some(Sub)
    case '*' => Some(Mul)
    case '/' => Some(Div)
    case '^' => Some(Pow)
    case '%' => Some(Mod)
    case ',' => Some(Comma)
    case _ => None
  }

  /** Length of the whitespace prefix of `s` (`consume_whitespace`). */
  function BlankLength(s: seq<char>): (n: nat)
    ensures n <= |s|
    ensures forall i :: 0 <= i < n ==> IsBlank(s[i])
    ensures n < |s| ==> !IsBlank(s[n])
  {
    if |s| == 0 || !IsBlank(s[0]) then 0 else 1 + BlankLength(s[1..])
  }

  /** Length of the run `get_expr` collects from the front of `s`. */
  function WordLength(s: seq<char>): (n: nat)
    ensures n <= |s|
    ensures forall i :: 0 <= i < n ==> IsWordChar(s[i])
    ensures n < |s| ==> !IsWordChar(s[n])
  {
    if |s| == 0 || !IsWordChar(s[0]) then 0 else 1 + WordLength(s[1..])
  }

  function DigitLength(s: seq<char>): (n: nat)
    ensures n <= |s|
    ensures forall i :: 0 <= i < n ==> IsDigit(s[i])
    ensures n < |s| ==> !IsDigit(s[n])
  {
    if |s| == 0 || !IsDigit(s[0]) then 0 else 1 + DigitLength(s[1..])
  }

  /** The keyword table of `parse_expr`, synonyms included. */
  function Keyword(w: seq<char>): Option<Token> {
    match w
    case "aikavali" => Some(Aikavali)
    case "abs" => Some(Abs)
    case "log" => Some(Log)
    case "ln" => Some(Ln)
    case "floor" => Some(Floor)
    case "ceil" => Some(Ceil)
    case "sqrt" => Some(Sqrt)
    case "exp" => Some(Exp)
    case "mod" => Some(Mod)
    case "pow" => Some(Pow)
    case "interpoloi" => Some(Interpoloi)
    case "min" | "pienin" => Some(Min)
    case "max" | "suurin" => Some(Max)
    case "sum" => Some(Sum)
    case "med" => Some(Med)
    case "kesk" | "mean" => Some(Kesk)
    case "ss" => Some(SS)
    case _ => None
  }

  /** `parse_expr`: a keyword first, then a number, otherwise a path. */
  function Classify(w: seq<char>, num: NumberParser): (t: Token)
    ensures Keyword(w).Some? ==> t == Keyword(w).value
    ensures Keyword(w).None? && num(w).Some? ==> t == Num(num(w).value)
    ensures Keyword(w).None? && num(w).None? ==> t == Expr(w)
    ensures InLexerAlphabet(t) && !t.Empty?
  {
    match Keyword(w)
    case Some(k) => k
    case None =>
      match num(w)
      case Some(v) => Num(v)
      case None => Expr(w)
  }

  /** Puts `t` in front of a successful scan; passes a failure through. */
  function Cons(t: Token, r: Result<seq<Token>, LexError>): Result<seq<Token>, LexError> {
    match r
    case Ok(ts) => Ok([t] + ts)
    case Err(e) => Err(e)
  }

  /** The tokens of `ta` followed by the outcome of another scan. */
  function Append(ta: seq<Token>, rb: Result<seq<Token>, LexError>): Result<seq<Token>, LexError> {
    match rb
    case Ok(tb) => Ok(ta + tb)
    case Err(e) => Err(e)
  }

  /** How a run of word characters becomes a token (`parse_expr`). */
  type Classifier = seq<char> -> Token

  /** `Lexer::lex`: `Scan` with `parse_expr` as the classifier. */
  function Lex(s: seq<char>, num: NumberParser): (r: Result<seq<Token>, LexError>)
    ensures r.Ok? ==> |r.value| <= |s|
  {
    Scan(s, Classification(num))
  }

  /** `parse_expr` with the number grammar `num`, as a classifier. */
  function Classification(num: NumberParser): (classify: Classifier)
    ensures forall w :: classify(w) == Classify(w, num)
  {
    w => Classify(w, num)
  }

  /** The loop of `Lexer::lex` on the remaining input `s`: while input
      remains, skip whitespace and read one token. */
  function Scan(s: seq<char>, classify: Classifier): (r: Result<seq<Token>, LexError>)
    ensures r.Ok? ==> |r.value| <= |s|
    decreases |s|, 1
  {
    if |s| == 0 then Ok([])
    else ScanToken(s[BlankLength(s)..], classify)
  }

  /** One iteration of the loop, after the whitespace has been skipped. */
  function ScanToken(t: seq<char>, classify: Classifier): (r: Result<seq<Token>, LexError>)
    ensures r.Ok? ==> |r.value| <= |t|
    decreases |t|, 0
  {
    if |t| == 0 then Err(NoNextChar)
    else if Symbol(t[0]).Some? then Cons(Symbol(t[0]).value, Scan(t[1..], classify))
    else
      var n := WordLength(t);
      if n == 0 then Err(Stuck(t[0]))
      else Cons(classify(t[..n]), Scan(t[n..], classify))
  }

  /** Each symbol character consumes one character and emits exactly its
      token, ahead of whatever the rest of the input yields. */
  lemma ScanSymbol(c: char, rest: seq<char>, classify: Classifier)
    requires Symbol(c).Some?
    ensures Scan([c] + rest, classify) == Cons(Symbol(c).value, Scan(rest, classify))
  {
    var s := [c] + rest;
    SymbolCharClass(c);
    assert s[0] == c && BlankLength(s) == 0 && s[0..] == s;
    assert s[1..] == rest;
    assert Scan(s, classify) == ScanToken(s, classify);
  }

  /** A symbol character is neither whitespace nor a word character. */
  lemma SymbolCharClass(c: char)
    requires Symbol(c).Some?
    ensures !IsBlank(c) && !IsWordChar(c)
  {
  }

  /** The eleven symbol characters and their tokens. */
  lemma SymbolTable()
    ensures Symbol('(') == Some(ParL) && Symbol(')') == Some(ParR)
    ensures Symbol('[') == Some(BrackL) && Symbol(']') == Some(BrackR)
    ensures Symbol('+') == Some(Add) && Symbol('-') == Some(Sub)
    ensures Symbol('*') == Some(Mul) && Symbol('/') == Some(Div)
    ensures Symbol('^') == Some(Pow) && Symbol('%') == Some(Mod)
    ensures Symbol(',') == Some(Comma)
    ensures forall c :: Symbol(c).Some? ==> !IsBlank(c) && !IsWordChar(c)
  {
  }

  lemma {:induction false} BlankRunAppend(w: seq<char>, rest: seq<char>)
    requires forall i :: 0 <= i < |w| ==> IsBlank(w[i])
    ensures BlankLength(w + rest) == |w| + BlankLength(rest)
    decreases |w|
  {
    if |w| > 0 {
      assert (w + rest)[1..] == w[1..] + rest;
      BlankRunAppend(w[1..], rest);
    } else {
      assert w + rest == rest;
    }
  }

  /** Whitespace in front of further input never produces a token. */
  lemma ScanSkipsBlanks(w: seq<char>, rest: seq<char>, classify: Classifier)
    requires forall i :: 0 <= i < |w| ==> IsBlank(w[i])
    requires |rest| > 0
    ensures Scan(w + rest, classify) == Scan(rest, classify)
  {
    var s := w + rest;
    BlankRunAppend(w, rest);
    var k := BlankLength(rest);
    var n := BlankLength(s);
    assert n == |w| + k;
    DropAppend(w, rest, k);
    assert Scan(s, classify) == ScanToken(s[n..], classify);
    assert Scan(rest, classify) == ScanToken(rest[k..], classify);
  }

  lemma DropAppend<T>(a: seq<T>, b: seq<T>, k: nat)
    requires k <= |b|
    ensures (a + b)[|a| + k..] == b[k..]
  {
  }

  /** Whitespace at the very end of the input is a failure. */
  lemma ScanTrailingBlanks(w: seq<char>, classify: Classifier)
    requires |w| > 0 && forall i :: 0 <= i < |w| ==> IsBlank(w[i])
    ensures Scan(w, classify) == Err(NoNextChar)
  {
    BlankRunAppend(w, []);
    assert w + [] == w;
  }

  lemma {:induction false} WordRunAppend(w: seq<char>, rest: seq<char>)
    requires forall i :: 0 <= i < |w| ==> IsWordChar(w[i])
    requires |rest| == 0 || !IsWordChar(rest[0])
    ensures WordLength(w + rest) == |w|
    decreases |w|
  {
    if |w| > 0 {
      assert (w + rest)[1..] == w[1..] + rest;
      WordRunAppend(w[1..], rest);
    } else {
      assert w + rest == rest;
    }
  }

  /** A maximal run of word characters yields exactly one token, classified
      from exactly that text, ahead of the tokens of the rest. */
  lemma ScanWord(w: seq<char>, rest: seq<char>, classify: Classifier)
    requires |w| > 0 && forall i :: 0 <= i < |w| ==> IsWordChar(w[i])
    requires |rest| == 0 || !IsWordChar(rest[0])
    ensures Scan(w + rest, classify) == Cons(classify(w), Scan(rest, classify))
  {
    var s := w + rest;
    assert s[0] == w[0];
    WordCharClass(w[0]);
    assert BlankLength(s) == 0 && s[0..] == s;
    WordRunAppend(w, rest);
    assert s[..|w|] == w && s[|w|..] == rest;
    assert Scan(s, classify) == ScanToken(s, classify);
  }

  /** A word character is neither whitespace nor a symbol. */
  lemma WordCharClass(c: char)
    requires IsWordChar(c)
    ensures !IsBlank(c) && Symbol(c).None?
  {
  }

  /** Any other character stops the scan. */
  lemma ScanStuck(c: char, rest: seq<char>, classify: Classifier)
    requires !IsBlank(c) && Symbol(c).None? && !IsWordChar(c)
    ensures Scan([c] + rest, classify) == Err(Stuck(c))
  {
  }

  lemma BlankPrefixStable(a: seq<char>, b: seq<char>)
    requires BlankLength(a) < |a|
    ensures BlankLength(a + b) == BlankLength(a)
  {
    var k := BlankLength(a);
    var w, rest := a[..k], a[k..] + b;
    assert a + b == w + rest;
    assert forall i :: 0 <= i < |w| ==> w[i] == a[i];
    BlankRunAppend(w, rest);
    assert rest[0] == a[k];
  }

  lemma {:induction false} WordPrefixStable(t: seq<char>, b: seq<char>)
    requires WordLength(t) < |t| || |b| == 0 || !IsWordChar(b[0])
    ensures WordLength(t + b) == WordLength(t)
    decreases |t|
  {
    if |t| == 0 {
      assert t + b == b;
    } else if !IsWordChar(t[0]) {
      assert (t + b)[0] == t[0];
    } else {
      assert (t + b)[0] == t[0] && (t + b)[1..] == t[1..] + b;
      WordPrefixStable(t[1..], b);
    }
  }

  /** Scanning is compositional: when the first part scans and the seam
      does not join two word characters, the scan of the whole input is the
      scan of the first part followed by the scan of the second. So tokens
      come out in input order. */
  lemma LexAppend(a: seq<char>, b: seq<char>, num: NumberParser)
    requires Lex(a, num).Ok?
    requires |a| == 0 || |b| == 0 || !IsWordChar(a[|a| - 1]) || !IsWordChar(b[0])
    ensures Lex(a + b, num) == Append(Lex(a, num).value, Lex(b, num))
  {
    ScanAppend(a, b, Classification(num));
  }

  lemma {:induction false} ScanAppend(a: seq<char>, b: seq<char>, classify: Classifier)
    requires Scan(a, classify).Ok?
    requires |a| == 0 || |b| == 0 || !IsWordChar(a[|a| - 1]) || !IsWordChar(b[0])
    ensures Scan(a + b, classify) == Append(Scan(a, classify).value, Scan(b, classify))
    decreases |a|, 1
  {
    if |a| == 0 {
      assert a + b == b;
      if Scan(b, classify).Ok? {
        assert [] + Scan(b, classify).value == Scan(b, classify).value;
      }
    } else {
      var t := a[BlankLength(a)..];
      ScanBlankAppend(a, b, classify);
      ScanTokenAppend(t, b, classify);
    }
  }

  /** Skipping the whitespace of a non-empty first part. */
  lemma ScanBlankAppend(a: seq<char>, b: seq<char>, classify: Classifier)
    requires |a| > 0 && Scan(a, classify).Ok?
    ensures var t := a[BlankLength(a)..];
      && |t| > 0 && t[|t| - 1] == a[|a| - 1]
      && Scan(a, classify) == ScanToken(t, classify)
      && Scan(a + b, classify) == ScanToken(t + b, classify)
  {
    var k := BlankLength(a);
    if k == |a| {
      assert false;
    }
    BlankPrefixStable(a, b);
    assert (a + b)[k..] == a[k..] + b;
  }

  lemma {:induction false} ScanTokenAppend(t: seq<char>, b: seq<char>, classify: Classifier)
    requires ScanToken(t, classify).Ok?
    requires |t| == 0 || |b| == 0 || !IsWordChar(t[|t| - 1]) || !IsWordChar(b[0])
    ensures ScanToken(t + b, classify) == Append(ScanToken(t, classify).value, Scan(b, classify))
    decreases |t|, 0
  {
    var n := if Symbol(t[0]).Some? then 1 else WordLength(t);
    var x := StepToken(t, classify);
    ScanTokenStep(t, classify);
    ScanTokenStepAppend(t, b, classify);
    var rest := Scan(t[n..], classify);
    ScanAppend(t[n..], b, classify);
    ConsAppend(x, rest.value, Scan(b, classify));
  }

  /** The token one loop iteration emits from a non-empty `t`. */
  function StepToken(t: seq<char>, classify: Classifier): Token
    requires |t| > 0
  {
    if Symbol(t[0]).Some? then Symbol(t[0]).value else classify(t[..WordLength(t)])
  }

  /** A successful iteration emits `StepToken` and continues after it. */
  lemma ScanTokenStep(t: seq<char>, classify: Classifier)
    requires ScanToken(t, classify).Ok?
    ensures |t| > 0 && (Symbol(t[0]).Some? || WordLength(t) > 0)
    ensures var n := if Symbol(t[0]).Some? then 1 else WordLength(t);
      ScanToken(t, classify) == Cons(StepToken(t, classify), Scan(t[n..], classify))
  {
  }

  lemma ScanTokenStepAppend(t: seq<char>, b: seq<char>, classify: Classifier)
    requires |t| > 0 && (Symbol(t[0]).Some? || WordLength(t) > 0)
    requires |b| == 0 || !IsWordChar(t[|t| - 1]) || !IsWordChar(b[0])
    ensures var n := if Symbol(t[0]).Some? then 1 else WordLength(t);
      ScanToken(t + b, classify) == Cons(StepToken(t, classify), Scan(t[n..] + b, classify))
  {
    assert (t + b)[0] == t[0];
    var n := if Symbol(t[0]).Some? then 1 else WordLength(t);
    assert (t + b)[n..] == t[n..] + b;
    if Symbol(t[0]).None? {
      var n := WordLength(t);
      WordPrefixStable(t, b);
      assert (t + b)[..n] == t[..n];
    }
  }

  lemma ConsAppend(x: Token, v: seq<Token>, r: Result<seq<Token>, LexError>)
    ensures Append(Cons(x, Ok(v)).value, r) == Cons(x, Append(v, r))
  {
    if r.Ok? {
      assert [x] + v + r.value == [x] + (v + r.value);
    }
  }

  /** The lexer only emits variants of its own `Token` enum, and never the
      `Empty` sentinel. */
  lemma LexAlphabet(s: seq<char>, num: NumberParser)
    requires Lex(s, num).Ok?
    ensures forall i :: 0 <= i < |Lex(s, num).value| ==>
      InLexerAlphabet(Lex(s, num).value[i]) && !Lex(s, num).value[i].Empty?
  {
    ScanAlphabet(s, Classification(num));
  }

  predicate ScanProducesLexerTokens(r: Result<seq<Token>, LexError>) {
    r.Ok? ==> forall i :: 0 <= i < |r.value| ==> InLexerAlphabet(r.value[i]) && !r.value[i].Empty?
  }

  lemma {:induction false} ScanAlphabet(s: seq<char>, classify: Classifier)
    requires forall w :: InLexerAlphabet(classify(w)) && !classify(w).Empty?
    ensures ScanProducesLexerTokens(Scan(s, classify))
    decreases |s|, 1
  {
    if |s| > 0 {
      ScanTokenAlphabet(s[BlankLength(s)..], classify);
    }
  }

  lemma {:induction false} ScanTokenAlphabet(t: seq<char>, classify: Classifier)
    requires forall w :: InLexerAlphabet(classify(w)) && !classify(w).Empty?
    ensures ScanProducesLexerTokens(ScanToken(t, classify))
    decreases |t|, 0
  {
    if |t| > 0 {
      if Symbol(t[0]).Some? {
        ScanAlphabet(t[1..], classify);
      } else if WordLength(t) > 0 {
        ScanAlphabet(t[WordLength(t)..], classify);
      }
    }
  }

  /** Keywords win over numbers and paths, and the synonyms share a token. */
  lemma KeywordsAndSynonyms(num: NumberParser)
    ensures Classify("pienin", num) == Classify("min", num) == Min
    ensures Classify("suurin", num) == Classify("max", num) == Max
    ensures Classify("mean", num) == Classify("kesk", num) == Kesk
    ensures Classify("ss", num) == SS && Classify("med", num) == Med
    ensures Classify("mod", num) == Mod && Classify("pow", num) == Pow
  {
    assert Keyword("pienin") == Some(Min);
    assert Keyword("min") == Some(Min);
    assert Keyword("suurin") == Some(Max);
    assert Keyword("max") == Some(Max);
    assert Keyword("mean") == Some(Kesk);
    assert Keyword("kesk") == Some(Kesk);
    assert Keyword("ss") == Some(SS);
    assert Keyword("med") == Some(Med);
    assert Keyword("mod") == Some(Mod);
    assert Keyword("pow") == Some(Pow);
  }

  /** The keyword `ss` on its own is one `SS` token, whatever the
      number grammar. */
  lemma SumOfSquaresExample(num: NumberParser)
    ensures Lex("ss", num) == Ok([SS])
  {
    var classify := Classification(num);
    ScanWord("ss", [], classify);
    assert "ss" + [] == "ss";
    KeywordsAndSynonyms(num);
    assert classify("ss") == SS;
    assert Scan([], classify) == Ok([]);
    assert [SS] + [] == [SS];
  }

  // ---- a decimal number grammar ----

  predicate IsDigit(c: char) {
    '0' <= c <= '9'
  }

  function Pow10(k: nat): (r: real)
    ensures r >= 1.0
  {
    if k == 0 then 1.0 else 10.0 * Pow10(k - 1)
  }

  /** The value of a string of decimal digits. */
  function DigitsValue(d: seq<char>): nat
    requires forall i :: 0 <= i < |d| ==> IsDigit(d[i])
  {
    if |d| == 0 then 0
    else
      assert IsDigit(d[|d| - 1]);
      10 * DigitsValue(d[..|d| - 1]) + (d[|d| - 1] as int - '0' as int)
  }

  /** Decimal literals `D+`, `D+.D*`, `D*.D+`, each with an optional
      exponent `eD+`/`ED+`: the part of Rust's float grammar that a run of
      letters, digits and dots can spell (no signs, no `inf`/`NaN`). */
  function DecimalNumber(w: seq<char>): (r: Option<real>)
    ensures r.Some? ==> |w| > 0 && (IsDigit(w[0]) || w[0] == '.')
  {
    var i := DigitLength(w);
    var ip := w[..i];
    var r1 := w[i..];
    var dot := |r1| > 0 && r1[0] == '.';
    var f := if dot then DigitLength(r1[1..]) else 0;
    var fp := if dot then r1[1..][..f] else [];
    var r2 := if dot then r1[1..][f..] else r1;
    var mantissa := DigitsValue(ip) as real + DigitsValue(fp) as real / Pow10(|fp|);
    if i + f == 0 then None
    else if |r2| == 0 then Some(mantissa)
    else if (r2[0] == 'e' || r2[0] == 'E') && |r2| > 1 && DigitLength(r2[1..]) == |r2| - 1 then
      Some(mantissa * Pow10(DigitsValue(r2[1..])))
    else None
  }

  /** A digit on its own is that number. */
  lemma SingleDigit(c: char)
    requires IsDigit(c)
    ensures DecimalNumber([c]) == Some((c as int - '0' as int) as real)
  {
    var w := [c];
    assert DigitLength(w) == 1;
    assert w[..1] == w && w[1..] == [];
    assert DigitsValue(w) == c as int - '0' as int by {
      assert w[..0] == [];
    }
  }

  /** A number grammar that reads `5` and `2` as Rust does. */
  predicate ReadsFiveAndTwo(num: NumberParser) {
    num("5") == Some(5.0) && num("2") == Some(2.0)
  }

  lemma DecimalReadsFiveAndTwo()
    ensures ReadsFiveAndTwo(DecimalNumber)
  {
    SingleDigit('5');
    SingleDigit('2');
    assert ['5'] == "5" && ['2'] == "2";
  }

  lemma DigitWords(num: NumberParser)
    requires ReadsFiveAndTwo(num)
    ensures Classify("5", num) == Num(5.0)
    ensures Classify("2", num) == Num(2.0)
  {
    assert Keyword("5").None? && Keyword("2").None?;
  }

  /** A run of word characters on its own is one token. */
  lemma ScanOneWord(w: seq<char>, classify: Classifier)
    requires |w| > 0 && forall i :: 0 <= i < |w| ==> IsWordChar(w[i])
    ensures Scan(w, classify) == Ok([classify(w)])
  {
    ScanWord(w, [], classify);
    assert w + [] == w;
    assert [classify(w)] + [] == [classify(w)];
  }

  /** A symbol in front of input that scans. */
  lemma SymbolThen(c: char, r: seq<char>, ts: seq<Token>, classify: Classifier)
    requires Symbol(c).Some? && Scan(r, classify) == Ok(ts)
    ensures Scan([c] + r, classify) == Ok([Symbol(c).value] + ts)
  {
    ScanSymbol(c, r, classify);
  }

  /** A word in front of input that scans and does not continue it. */
  lemma WordThen(w: seq<char>, r: seq<char>, ts: seq<Token>, classify: Classifier)
    requires |w| > 0 && forall i :: 0 <= i < |w| ==> IsWordChar(w[i])
    requires |r| > 0 && !IsWordChar(r[0]) && Scan(r, classify) == Ok(ts)
    ensures Scan(w + r, classify) == Ok([classify(w)] + ts)
  {
    ScanWord(w, r, classify);
  }

  /** A blank in front of non-empty input is skipped. */
  lemma BlankThen(r: seq<char>, ts: seq<Token>, classify: Classifier)
    requires |r| > 0 && Scan(r, classify) == Ok(ts)
    ensures Scan(" " + r, classify) == Ok(ts) && (" " + r)[0] == ' '
  {
    assert IsBlank(' ') && " "[0] == ' ';
    ScanSkipsBlanks(" ", r, classify);
  }

  /** A symbol, a blank and a word: two tokens. */
  lemma SymbolBlankWord(op: char, b: seq<char>, classify: Classifier)
    requires |b| > 0 && forall i :: 0 <= i < |b| ==> IsWordChar(b[i])
    requires Symbol(op).Some?
    ensures Scan([op] + (" " + b), classify) == Ok([Symbol(op).value, classify(b)])
  {
    var r1 := " " + b;
    assert Scan(r1, classify) == Ok([classify(b)]) by {
      ScanOneWord(b, classify);
      BlankThen(b, [classify(b)], classify);
    }
    SymbolThen(op, r1, [classify(b)], classify);
    assert [Symbol(op).value] + [classify(b)] == [Symbol(op).value, classify(b)];
  }

  /** A word and a blank in front of non-empty input that scans. */
  lemma WordBlankThen(a: seq<char>, r: seq<char>, ts: seq<Token>, classify: Classifier)
    requires |a| > 0 && forall i :: 0 <= i < |a| ==> IsWordChar(a[i])
    requires |r| > 0 && Scan(r, classify) == Ok(ts)
    ensures Scan(a + (" " + r), classify) == Ok([classify(a)] + ts)
  {
    BlankThen(r, ts, classify);
    assert !IsWordChar(' ');
    WordThen(a, " " + r, ts, classify);
  }

  /** A word, a blank, a symbol, a blank and a word: three tokens. */
  lemma SpacedInfix(a: seq<char>, op: char, b: seq<char>, classify: Classifier)
    requires |a| > 0 && forall i :: 0 <= i < |a| ==> IsWordChar(a[i])
    requires |b| > 0 && forall i :: 0 <= i < |b| ==> IsWordChar(b[i])
    requires Symbol(op).Some?
    ensures Scan(a + " " + [op] + " " + b, classify)
         == Ok([classify(a), Symbol(op).value, classify(b)])
  {
    var ts := [Symbol(op).value, classify(b)];
    var r2 := [op] + (" " + b);
    var s := a + " " + [op] + " " + b;
    assert s == a + (" " + r2);
    assert [classify(a)] + ts == [classify(a), Symbol(op).value, classify(b)];
    SymbolBlankWord(op, b, classify);
    WordBlankThen(a, r2, ts, classify);
  }

  /** `5 + 2` is the number five, the plus sign and the number two, for
      any number grammar that reads `5` and `2` (`DecimalNumber` does). */
  lemma SumExample(num: NumberParser)
    requires ReadsFiveAndTwo(num)
    ensures Lex("5 + 2", num) == Ok([Num(5.0), Add, Num(2.0)])
  {
    var c := Classification(num);
    DigitWords(num);
    var two, five: seq<char> := "2", "5";
    assert |two| == 1 && IsWordChar(two[0]) && |five| == 1 && IsWordChar(five[0]);
    assert Symbol('+') == Some(Add);
    SpacedInfix(five, '+', two, c);
    assert five + " " + ['+'] + " " + two == "5 + 2";
  }

  // ---- scanning an input piece by piece ----

  /** Two inputs that scan on their own scan together, when the seam does
      not join two word characters. */
  lemma ScanJoin(a: seq<char>, b: seq<char>, ta: seq<Token>, tb: seq<Token>, classify: Classifier)
    requires Scan(a, classify) == Ok(ta) && Scan(b, classify) == Ok(tb)
    requires |a| == 0 || |b| == 0 || !IsWordChar(a[|a| - 1]) || !IsWordChar(b[0])
    ensures Scan(a + b, classify) == Ok(ta + tb)
  {
    ScanAppend(a, b, classify);
  }

  /** The pieces laid end to end. */
  function Concat<T>(ps: seq<seq<T>>): seq<T> {
    if |ps| == 0 then [] else ps[0] + Concat(ps[1..])
  }

  /** Every piece is non-empty and no two neighbours join two word
      characters. */
  predicate Separated(ps: seq<seq<char>>) {
    && (forall i :: 0 <= i < |ps| ==> |ps[i]| > 0)
    && (forall i :: 0 <= i < |ps| - 1 ==> !IsWordChar(ps[i][|ps[i]| - 1]) || !IsWordChar(ps[i + 1][0]))
  }

  /** Pieces that scan on their own scan together, in order: the tokens of
      an input cut at word boundaries are the tokens of its pieces. */
  lemma {:induction false} ScanPieces(ps: seq<seq<char>>, ts: seq<seq<Token>>, c: Classifier)
    requires |ps| == |ts| && Separated(ps)
    requires forall i :: 0 <= i < |ps| ==> Scan(ps[i], c) == Ok(ts[i])
    ensures Scan(Concat(ps), c) == Ok(Concat(ts))
    decreases |ps|
  {
    if |ps| > 0 {
      assert Separated(ps[1..]);
      ScanPieces(ps[1..], ts[1..], c);
      assert |ps| > 1 ==> Concat(ps[1..])[0] == ps[1][0];
      ScanJoin(ps[0], Concat(ps[1..]), ts[0], Concat(ts[1..]), c);
    }
  }
}
