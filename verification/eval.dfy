/** The tree evaluator (src/calc/mod.rs:15-81): every child of a node is
    evaluated left to right into one operand each, and the node's tag is
    dispatched on the operand list `res`.

    Everything the source turns into a panic (an empty node, a getter, an
    operand index out of range, a tag with no case) is an `Err` here. So are
    the inputs on which the source's float arithmetic has no real value to
    give (`NoRealValue`: a zero divisor, a degenerate `logb` base, an empty
    `min`, `max` or `kesk`, equal abscissae in `interpoloi`). Overflow and
    the infinities or `NaN` of the `Math` functions are ordinary reals. */
module Calc {
  import opened Wrappers
  import opened Syntax
  import Kipac

  /** The transcendental functions of `f64` the evaluator calls, supplied
      by the caller: base-10 and natural logarithm, square root,
      exponential, `powf(base, exponent)` and the trigonometric family. */
  datatype Math = Math(
    log10: real -> real,
    ln: real -> real,
    sqrt: real -> real,
    exp: real -> real,
    powf: (real, real) -> real,
    sin: real -> real,
    cos: real -> real,
    tan: real -> real,
    asin: real -> real,
    acos: real -> real,
    atan: real -> real)

  /** The outcome of an evaluation: a single number. */
  datatype Value = Num(n: real)

  datatype EvalError =
    | EmptyNode                 // `Ast::Empty` met during evaluation
    | GetNode(path: string)     // a getter left in the tree
    | MissingOperand(fun: Fun)  // `res[i]` out of range
    | Unimplemented(fun: Fun)   // a tag with no case
    | NotFinite(fun: Fun)       // a NaN or infinite float in the source

  /** `cond!`: a truth value as a number. */
  function Cond(b: bool): (r: real)
    ensures r == 1.0 || r == 0.0
    ensures r == 1.0 <==> b
  {
    if b then 1.0 else 0.0
  }

  /** How many leading operands a tag reads before it can compute
      anything: reading fewer panics in the source. */
  function OperandsNeeded(f: Fun): nat {
    match f
    case Abs | Log | Ln | Floor | Ceil | Sqrt | Exp | Minus | Plus | If => 1
    case Sin | Cos | Tan | Arcsin | Arccos | Arctan => 1
    case Aikavali | Pow | Logb | Div | Mul | Sub | Mod => 2
    case Eq | Neq | Ge | Gt | Le | Lt => 2
    case Aikainterp => 3
    case Interpoloi => 4
    case _ => 0
  }

  /** `res[0] as usize`: truncation toward zero, with negative values
      saturating to 0. */
  function AsIndex(x: real): (k: nat)
    ensures x <= 0.0 ==> k == 0
    ensures x > 0.0 ==> k as real <= x < k as real + 1.0
  {
    if x <= 0.0 then 0 else x.Floor
  }

  /** A primitive's result, with a non-finite outcome turned into an error. */
  function Finite(f: Fun, v: Option<real>): (r: Result<real, EvalError>)
    ensures r.Ok? <==> v.Some?
    ensures r.Ok? ==> r.value == v.value
  {
    match v
    case Some(x) => Ok(x)
    case None => Err(NotFinite(f))
  }

  predicate IsComparison(f: Fun) {
    f.Eq? || f.Neq? || f.Ge? || f.Gt? || f.Le? || f.Lt?
  }

  predicate IsReducer(f: Fun) {
    f.Min? || f.Max? || f.Sum? || f.Add? || f.Med? || f.Kesk?
  }

  predicate IsArithmetic(f: Fun) {
    f.Sub? || f.Div? || f.Mul? || f.Mod? || f.Pow? || f.Minus? || f.Plus?
  }

  predicate IsTranscendental(f: Fun) {
    f.Log? || f.Ln? || f.Sqrt? || f.Exp? || f.Logb?
    || f.Sin? || f.Cos? || f.Tan? || f.Arcsin? || f.Arccos? || f.Arctan?
  }

  predicate IsKipaFunction(f: Fun) {
    f.Abs? || f.Floor? || f.Ceil? || f.Aikavali? || f.Interpoloi? || f.Aikainterp? || f.If?
  }

  /** The comparisons: `res[1]` against `res[0]`. */
  function Compare(f: Fun, res: seq<real>): real
    requires IsComparison(f) && |res| >= 2
  {
    match f
    case Eq => Cond(res[1] == res[0])
    case Neq => Cond(res[1] != res[0])
    case Ge => Cond(res[1] <= res[0])
    case Gt => Cond(res[1] < res[0])
    case Le => Cond(res[1] >= res[0])
    case Lt => Cond(res[1] > res[0])
  }

  /** The reducers over the whole operand list. */
  function Reduce(f: Fun, res: seq<real>): Result<real, EvalError>
    requires IsReducer(f)
  {
    match f
    case Min => Finite(f, Kipac.Min(res))
    case Max => Finite(f, Kipac.Max(res))
    case Sum | Add => Ok(Kipac.Sum(res))
    // an empty list makes `median` index out of range
    case Med => if |res| == 0 then Err(MissingOperand(f)) else Finite(f, Kipac.Median(res))
    case Kesk => Finite(f, Kipac.Mean(res))
  }

  /** The arithmetic operators, with `res[1]` as the left operand. */
  function Arithmetic(f: Fun, res: seq<real>, m: Math): Result<real, EvalError>
    requires IsArithmetic(f) && |res| >= OperandsNeeded(f)
  {
    match f
    case Pow => Ok(m.powf(res[1], res[0]))
    case Div => if res[0] == 0.0 then Err(NotFinite(f)) else Ok(res[1] / res[0])
    case Mul => Ok(res[0] * res[1])
    case Sub => Ok(res[1] - res[0])
    case Mod => Finite(f, Kipac.Kmod(res[1], res[0]))
    case Minus => Ok(-1.0 * res[0])
    case Plus => Ok(res[0])
  }

  /** The functions computed by the caller's `Math`. */
  function Transcendental(f: Fun, res: seq<real>, m: Math): Result<real, EvalError>
    requires IsTranscendental(f) && |res| >= OperandsNeeded(f)
  {
    match f
    case Log => Ok(m.log10(res[0]))
    case Ln => Ok(m.ln(res[0]))
    case Sqrt => Ok(m.sqrt(res[0]))
    case Exp => Ok(m.exp(res[0]))
    case Logb => if m.ln(res[1]) == 0.0 then Err(NotFinite(f)) else Ok(m.ln(res[0]) / m.ln(res[1]))
    case Sin => Ok(m.sin(res[0]))
    case Cos => Ok(m.cos(res[0]))
    case Tan => Ok(m.tan(res[0]))
    case Arcsin => Ok(m.asin(res[0]))
    case Arccos => Ok(m.acos(res[0]))
    case Arctan => Ok(m.atan(res[0]))
  }

  /** The remaining primitives of the Kipa catalogue, and the selector. */
  function KipaFunction(f: Fun, res: seq<real>): Result<real, EvalError>
    requires IsKipaFunction(f) && |res| >= OperandsNeeded(f)
  {
    match f
    case Abs => Ok(Kipac.Abs(res[0]))
    case Floor => Ok(Kipac.Floor(res[0]))
    case Ceil => Ok(Kipac.Ceil(res[0]))
    case Aikavali => Ok(Kipac.Aikavali(res[0], res[1]))
    case Interpoloi => Finite(f, Kipac.Interpoloi(res[0], res[1], res[2], res[3], 0.0))
    case Aikainterp => Finite(f, Kipac.Interpoloi(res[0], res[1], res[1] + res[2], res[2], 0.0))
    case If =>
      var k := AsIndex(res[0]) + 1;
      if k < |res| then Ok(res[k]) else Err(MissingOperand(f))
  }

  /** The dispatch of `eval` on a tag and its operand list. Subtraction,
      division, modulo, power and the comparisons take `res[1]` as the left
      operand and `res[0]` as the right one. */
  function Apply(f: Fun, res: seq<real>, m: Math): Result<real, EvalError> {
    if |res| < OperandsNeeded(f) then Err(MissingOperand(f))
    else if IsComparison(f) then Ok(Compare(f, res))
    else if IsReducer(f) then Reduce(f, res)
    else if IsArithmetic(f) then Arithmetic(f, res, m)
    else if IsTranscendental(f) then Transcendental(f, res, m)
    else if IsKipaFunction(f) then KipaFunction(f, res)
    // `Empty`, `Interp`, `SS`, `List` and `Pair` have no case
    else Err(Unimplemented(f))
  }

  /** `eval`: a leaf is its number; the empty marker and getters fail; a
      node applies its tag to the values of all its children. */
  function Eval(a: Ast, m: Math): (r: Result<Value, EvalError>)
    ensures a.Empty? || a.Get? ==> r.Err?
    ensures a.Leaf? ==> r == Ok(Num(a.n))
    ensures a.Node? && EvalAll(a.children, m).Err? ==> r == Err(EvalAll(a.children, m).error)
    ensures a.Node? && EvalAll(a.children, m).Ok? ==> r == Lift(Apply(a.fun, EvalAll(a.children, m).value, m))
    decreases a, 1
  {
    match a
    case Empty => Err(EmptyNode)
    case Leaf(n) => Ok(Num(n))
    case Get(p) => Err(GetNode(p))
    case Node(cs, f) =>
      var res :- EvalAll(cs, m);
      var v :- Apply(f, res, m);
      Ok(Num(v))
  }

  /** The loop over the children: one operand per child, in order; the
      first child that fails decides the error. */
  function EvalAll(cs: seq<Ast>, m: Math): (r: Result<seq<real>, EvalError>)
    ensures r.Ok? ==> |r.value| == |cs|
    ensures r.Ok? <==> forall i :: 0 <= i < |cs| ==> Eval(cs[i], m).Ok?
    ensures r.Ok? ==> forall i :: 0 <= i < |cs| ==> Eval(cs[i], m) == Ok(Num(r.value[i]))
    ensures r.Err? ==>
      exists i :: 0 <= i < |cs| && Eval(cs[i], m) == Err(r.error)
                  && forall j :: 0 <= j < i ==> Eval(cs[j], m).Ok?
    decreases cs, 0
  {
    if |cs| == 0 then Ok([])
    else
      match Eval(cs[0], m)
      case Err(e) => Err(e)
      case Ok(v) =>
        match EvalAll(cs[1..], m)
        case Err(e) =>
          ghost var i :| 0 <= i < |cs| - 1 && Eval(cs[1..][i], m) == Err(e)
            && forall j :: 0 <= j < i ==> Eval(cs[1..][j], m).Ok?;
          assert Eval(cs[i + 1], m) == Err(e);
          Err(e)
        case Ok(rest) =>
          assert forall i :: 1 <= i < |cs| ==> cs[i] == cs[1..][i - 1];
          Ok([v.n] + rest)
  }

  /** The result of a node whose children all evaluate. */
  function Lift(r: Result<real, EvalError>): Result<Value, EvalError> {
    match r
    case Ok(v) => Ok(Num(v))
    case Err(e) => Err(e)
  }

  /** A node whose children evaluate to `vs` applies its tag to exactly
      `vs`: one operand per child, in the children's order. */
  lemma EvalNode(cs: seq<Ast>, f: Fun, vs: seq<real>, m: Math)
    requires |vs| == |cs|
    requires forall i :: 0 <= i < |cs| ==> Eval(cs[i], m) == Ok(Num(vs[i]))
    ensures Eval(Node(cs, f), m) == Lift(Apply(f, vs, m))
  {
    var r := EvalAll(cs, m);
    assert r.Ok?;
    assert forall i :: 0 <= i < |cs| ==> r.value[i] == vs[i];
    assert r.value == vs;
  }

  /** A node's value depends only on the values (or errors) of its
      children: replacing children by children that evaluate the same
      leaves the node's evaluation unchanged. */
  lemma EvalCongruent(cs: seq<Ast>, ds: seq<Ast>, f: Fun, m: Math)
    requires |cs| == |ds|
    requires forall i :: 0 <= i < |cs| ==> Eval(cs[i], m) == Eval(ds[i], m)
    ensures EvalAll(cs, m) == EvalAll(ds, m)
    ensures Eval(Node(cs, f), m) == Eval(Node(ds, f), m)
  {
    EvalAllCongruent(cs, ds, m);
  }

  /** The loop over the children reads only what each child evaluates to. */
  lemma EvalAllCongruent(cs: seq<Ast>, ds: seq<Ast>, m: Math)
    requires |cs| == |ds|
    requires forall i :: 0 <= i < |cs| ==> Eval(cs[i], m) == Eval(ds[i], m)
    ensures EvalAll(cs, m) == EvalAll(ds, m)
  {
    var rc, rd := EvalAll(cs, m), EvalAll(ds, m);
    if rc.Ok? {
      assert rd.Ok?;
      assert forall i :: 0 <= i < |cs| ==> rc.value[i] == rd.value[i];
      assert rc.value == rd.value;
    } else {
      assert rd.Err?;
      var i :| 0 <= i < |cs| && Eval(cs[i], m) == Err(rc.error)
        && forall j :: 0 <= j < i ==> Eval(cs[j], m).Ok?;
      var k :| 0 <= k < |ds| && Eval(ds[k], m) == Err(rd.error)
        && forall j :: 0 <= j < k ==> Eval(ds[j], m).Ok?;
      assert Eval(ds[i], m) == Eval(cs[i], m);
      assert Eval(cs[k], m) == Eval(ds[k], m);
      assert i == k;
    }
  }

  /** Subtraction, division, modulo and power take the second operand as
      their left-hand side and the first as their right-hand side;
      multiplication is symmetric in them. */
  lemma OperandOrder(res: seq<real>, m: Math)
    requires |res| >= 2
    ensures Apply(Fun.Sub, res, m) == Ok(res[1] - res[0])
    ensures res[0] != 0.0 ==> Apply(Fun.Div, res, m) == Ok(res[1] / res[0])
    ensures res[0] == 0.0 ==> Apply(Fun.Div, res, m).Err?
    ensures Apply(Fun.Mod, res, m) == Finite(Fun.Mod, Kipac.Kmod(res[1], res[0]))
    ensures Apply(Fun.Pow, res, m) == Ok(m.powf(res[1], res[0]))
    ensures Apply(Fun.Mul, res, m) == Ok(res[1] * res[0])
  {
    ApplyArithmetic(Fun.Sub, res, m);
    ApplyArithmetic(Fun.Div, res, m);
    ApplyArithmetic(Fun.Mod, res, m);
    ApplyArithmetic(Fun.Pow, res, m);
    ApplyArithmetic(Fun.Mul, res, m);
    assert Arithmetic(Fun.Mul, res, m).value == res[0] * res[1];
  }

  /** So the tree `Sub(a, b)` evaluates to `b - a`. */
  lemma SubtractsFirstFromSecond(a: real, b: real, m: Math)
    ensures Eval(Node([Leaf(a), Leaf(b)], Fun.Sub), m) == Ok(Num(b - a))
  {
    EvalNode([Leaf(a), Leaf(b)], Fun.Sub, [a, b], m);
    OperandOrder([a, b], m);
  }

  /** `Add` and `Sum` both sum every operand, whatever their number. */
  lemma AddIsSum(res: seq<real>, m: Math)
    ensures Apply(Fun.Add, res, m) == Apply(Fun.Sum, res, m) == Ok(Kipac.Sum(res))
  {
  }

  /** Every comparison needs two operands and then yields exactly 1 or 0. */
  lemma ComparisonIsBoolean(f: Fun, res: seq<real>, m: Math)
    requires IsComparison(f)
    ensures Apply(f, res, m).Ok? <==> |res| >= 2
    ensures Apply(f, res, m).Ok? ==> Apply(f, res, m).value == 0.0 || Apply(f, res, m).value == 1.0
  {
  }

  /** The pairs `Eq`/`Neq`, `Ge`/`Lt` and `Gt`/`Le` are complementary. */
  lemma ComparisonsComplementary(res: seq<real>, m: Math)
    requires |res| >= 2
    ensures Apply(Fun.Eq, res, m).value + Apply(Fun.Neq, res, m).value == 1.0
    ensures Apply(Fun.Ge, res, m).value + Apply(Fun.Lt, res, m).value == 1.0
    ensures Apply(Fun.Gt, res, m).value + Apply(Fun.Le, res, m).value == 1.0
  {
    ApplyComparison(Fun.Eq, res, m);
    ApplyComparison(Fun.Neq, res, m);
    ApplyComparison(Fun.Ge, res, m);
    ApplyComparison(Fun.Lt, res, m);
    ApplyComparison(Fun.Gt, res, m);
    ApplyComparison(Fun.Le, res, m);
  }

  /** `If` selects operand `k + 1`, where `k` is the first operand cast to
      an index, and fails when that operand does not exist. */
  lemma IfSelects(res: seq<real>, m: Math)
    ensures Apply(Fun.If, res, m).Ok? <==> |res| >= 1 && AsIndex(res[0]) + 1 < |res|
    ensures Apply(Fun.If, res, m).Ok? ==> Apply(Fun.If, res, m).value == res[AsIndex(res[0]) + 1]
  {
  }

  /** The signs. */
  lemma Signs(res: seq<real>, m: Math)
    ensures |res| >= 1 ==> Apply(Fun.Minus, res, m) == Ok(-res[0])
    ensures |res| >= 1 ==> Apply(Fun.Plus, res, m) == Ok(res[0])
    ensures |res| == 0 ==> Apply(Fun.Minus, res, m).Err? && Apply(Fun.Plus, res, m).Err?
  {
  }

  /** The tags without a case fail whatever their operands. */
  lemma NoCase(f: Fun, res: seq<real>, m: Math)
    requires f.Empty? || f.SS? || f.List? || f.Pair? || f.Interp?
    ensures Apply(f, res, m) == Err(EvalError.Unimplemented(f))
  {
    assert OperandsNeeded(f) == 0;
    assert !IsComparison(f) && !IsReducer(f) && !IsArithmetic(f);
    assert !IsTranscendental(f) && !IsKipaFunction(f);
  }

  /** The two derived functions: time interpolation is raw interpolation
      from `(res1, res1 + res2)` towards `res2`, and `Logb` the quotient of
      natural logarithms. */
  lemma DerivedFunctions(res: seq<real>, m: Math)
    requires |res| >= 3
    ensures Apply(Fun.Aikainterp, res, m)
      == Finite(Fun.Aikainterp, Kipac.Interpoloi(res[0], res[1], res[1] + res[2], res[2], 0.0))
    ensures m.ln(res[1]) != 0.0 ==> Apply(Fun.Logb, res, m) == Ok(m.ln(res[0]) / m.ln(res[1]))
  {
  }

  /** The minimum and maximum read the whole operand list. */
  lemma MinMaxReduce(res: seq<real>, m: Math)
    ensures Apply(Fun.Min, res, m).Ok? <==> |res| > 0
    ensures Apply(Fun.Min, res, m).Ok? ==>
      Apply(Fun.Min, res, m).value in res && forall i :: 0 <= i < |res| ==> Apply(Fun.Min, res, m).value <= res[i]
    ensures Apply(Fun.Max, res, m).Ok? <==> |res| > 0
    ensures Apply(Fun.Max, res, m).Ok? ==>
      Apply(Fun.Max, res, m).value in res && forall i :: 0 <= i < |res| ==> Apply(Fun.Max, res, m).value >= res[i]
  {
    ApplyReducer(Fun.Min, res, m);
    ApplyReducer(Fun.Max, res, m);
  }

  /** The mean reads the whole operand list; an empty one divides zero by
      zero. */
  lemma MeanReduce(res: seq<real>, m: Math)
    ensures Apply(Fun.Kesk, res, m).Ok? <==> |res| > 0
    ensures Apply(Fun.Kesk, res, m).Ok? ==> Apply(Fun.Kesk, res, m).value * |res| as real == Kipac.Sum(res)
  {
    ApplyReducer(Fun.Kesk, res, m);
  }

  /** The median reads the whole operand list; an empty one has no middle
      element. */
  lemma MedianReduce(res: seq<real>, m: Math)
    ensures Apply(Fun.Med, res, m).Ok? <==> |res| > 0
    ensures Apply(Fun.Med, res, m).Ok? ==> Apply(Fun.Med, res, m) == Ok(Kipac.Median(res).value)
  {
    ApplyReducer(Fun.Med, res, m);
  }

  /** The inputs on which the source's `f64` arithmetic has no real value
      to give: a zero divisor for `/` and `%`, a base whose logarithm is
      zero for `logb`, an empty `min`, `max` or `kesk`, and equal abscissae
      for `interpoloi` and `aikainterp`. */
  predicate NoRealValue(f: Fun, res: seq<real>, m: Math) {
    |res| >= OperandsNeeded(f) &&
    (((f.Div? || f.Mod?) && res[0] == 0.0)
     || (f.Logb? && m.ln(res[1]) == 0.0)
     || ((f.Min? || f.Max? || f.Kesk?) && |res| == 0)
     || (f.Interpoloi? && res[1] == res[3])
     || (f.Aikainterp? && res[1] == res[2]))
  }

  /** `NotFinite` is raised on exactly those inputs. Anything else the
      source would compute as an infinity or `NaN` (an overflowing sum or
      product, `ln(0)`, `sqrt(-1)`) is an ordinary `Ok` value here. */
  lemma NotFiniteExactly(f: Fun, res: seq<real>, m: Math)
    ensures Apply(f, res, m).Err? && Apply(f, res, m).error.NotFinite? <==> NoRealValue(f, res, m)
  {
    if |res| < OperandsNeeded(f) {
      assert Apply(f, res, m) == Err(MissingOperand(f));
    } else if IsComparison(f) {
      assert Apply(f, res, m).Ok?;
      assert !NoRealValue(f, res, m);
    } else if IsReducer(f) {
      ReducerNotFinite(f, res, m);
    } else if IsArithmetic(f) {
      ArithmeticNotFinite(f, res, m);
    } else if IsTranscendental(f) {
      TranscendentalNotFinite(f, res, m);
    } else if IsKipaFunction(f) {
      KipaNotFinite(f, res, m);
    } else {
      assert Apply(f, res, m) == Err(Unimplemented(f));
      assert !NoRealValue(f, res, m);
    }
  }

  lemma ReducerNotFinite(f: Fun, res: seq<real>, m: Math)
    requires IsReducer(f)
    ensures Apply(f, res, m).Err? && Apply(f, res, m).error.NotFinite? <==> NoRealValue(f, res, m)
  {
    ApplyReducer(f, res, m);
    assert NoRealValue(f, res, m) <==> (f.Min? || f.Max? || f.Kesk?) && |res| == 0;
  }

  lemma ArithmeticNotFinite(f: Fun, res: seq<real>, m: Math)
    requires IsArithmetic(f) && |res| >= OperandsNeeded(f)
    ensures Apply(f, res, m).Err? && Apply(f, res, m).error.NotFinite? <==> NoRealValue(f, res, m)
  {
    ApplyArithmetic(f, res, m);
    assert NoRealValue(f, res, m) <==> (f.Div? || f.Mod?) && res[0] == 0.0;
  }

  lemma TranscendentalNotFinite(f: Fun, res: seq<real>, m: Math)
    requires IsTranscendental(f) && |res| >= OperandsNeeded(f)
    ensures Apply(f, res, m).Err? && Apply(f, res, m).error.NotFinite? <==> NoRealValue(f, res, m)
  {
    ApplyTranscendental(f, res, m);
    TranscendentalFails(f, res, m);
    assert NoRealValue(f, res, m) <==> f.Logb? && m.ln(res[1]) == 0.0;
  }

  lemma TranscendentalFails(f: Fun, res: seq<real>, m: Math)
    requires IsTranscendental(f) && |res| >= OperandsNeeded(f)
    ensures Transcendental(f, res, m).Err? && Transcendental(f, res, m).error.NotFinite? <==> f.Logb? && m.ln(res[1]) == 0.0
  {
  }

  lemma KipaNotFinite(f: Fun, res: seq<real>, m: Math)
    requires IsKipaFunction(f) && |res| >= OperandsNeeded(f)
    ensures Apply(f, res, m).Err? && Apply(f, res, m).error.NotFinite? <==> NoRealValue(f, res, m)
  {
    ApplyKipaFunction(f, res, m);
    KipaFunctionFails(f, res);
    assert NoRealValue(f, res, m) <==> (f.Interpoloi? && res[1] == res[3]) || (f.Aikainterp? && res[1] == res[2]);
  }

  lemma KipaFunctionFails(f: Fun, res: seq<real>)
    requires IsKipaFunction(f) && |res| >= OperandsNeeded(f)
    ensures KipaFunction(f, res).Err? && KipaFunction(f, res).error.NotFinite?
        <==> (f.Interpoloi? && res[1] == res[3]) || (f.Aikainterp? && res[1] == res[2])
  {
  }

  /** A comparison with both operands present goes to `Compare`. */
  lemma ApplyComparison(f: Fun, res: seq<real>, m: Math)
    requires IsComparison(f) && |res| >= 2
    ensures Apply(f, res, m) == Ok(Compare(f, res))
  {
    assert OperandsNeeded(f) == 2;
  }

  /** An arithmetic tag with its operands present goes to `Arithmetic`. */
  lemma ApplyArithmetic(f: Fun, res: seq<real>, m: Math)
    requires IsArithmetic(f) && |res| >= OperandsNeeded(f)
    ensures Apply(f, res, m) == Arithmetic(f, res, m)
  {
    assert !IsComparison(f) && !IsReducer(f);
  }

  /** A transcendental tag with its operand present goes to `Transcendental`. */
  lemma ApplyTranscendental(f: Fun, res: seq<real>, m: Math)
    requires IsTranscendental(f) && |res| >= OperandsNeeded(f)
    ensures Apply(f, res, m) == Transcendental(f, res, m)
  {
    assert !IsComparison(f) && !IsReducer(f) && !IsArithmetic(f);
  }

  /** The remaining Kipa primitives go to `KipaFunction`. */
  lemma ApplyKipaFunction(f: Fun, res: seq<real>, m: Math)
    requires IsKipaFunction(f) && |res| >= OperandsNeeded(f)
    ensures Apply(f, res, m) == KipaFunction(f, res)
  {
    assert !IsComparison(f) && !IsReducer(f) && !IsArithmetic(f) && !IsTranscendental(f);
  }

  /** The reducers need no operand count: `Apply` hands them the whole list. */
  lemma ApplyReducer(f: Fun, res: seq<real>, m: Math)
    requires IsReducer(f)
    ensures Apply(f, res, m) == Reduce(f, res)
  {
    assert OperandsNeeded(f) == 0 && !IsComparison(f);
  }

  /** `min(5, 10, 2)` and `min(5, -10, 2)` as trees. */
  lemma MinExamples(m: Math)
    ensures Eval(Node([Leaf(5.0), Leaf(10.0), Leaf(2.0)], Fun.Min), m) == Ok(Num(2.0))
    ensures Eval(Node([Leaf(5.0), Node([Leaf(10.0)], Fun.Minus), Leaf(2.0)], Fun.Min), m) == Ok(Num(-10.0))
  {
    MinOfLeaves(m);
    MinOfNegated(m);
  }

  lemma MinOfLeaves(m: Math)
    ensures Eval(Node([Leaf(5.0), Leaf(10.0), Leaf(2.0)], Fun.Min), m) == Ok(Num(2.0))
  {
    var xs := [5.0, 10.0, 2.0];
    EvalNode([Leaf(5.0), Leaf(10.0), Leaf(2.0)], Fun.Min, xs, m);
    MinMaxReduce(xs, m);
    assert Apply(Fun.Min, xs, m).value <= xs[2];
  }

  lemma MinOfNegated(m: Math)
    ensures Eval(Node([Leaf(5.0), Node([Leaf(10.0)], Fun.Minus), Leaf(2.0)], Fun.Min), m) == Ok(Num(-10.0))
  {
    var minus := Node([Leaf(10.0)], Fun.Minus);
    assert Eval(minus, m) == Ok(Num(-10.0)) by {
      EvalNode([Leaf(10.0)], Fun.Minus, [10.0], m);
      Signs([10.0], m);
    }
    var ys := [5.0, -10.0, 2.0];
    EvalNode([Leaf(5.0), minus, Leaf(2.0)], Fun.Min, ys, m);
    MinMaxReduce(ys, m);
    assert Apply(Fun.Min, ys, m).value <= ys[1];
  }

  /** `if(0, a, b, c)` selects `a` and `if(2, a, b, c)` selects `c`. */
  lemma IfExamples(a: real, b: real, c: real, m: Math)
    ensures Eval(Node([Leaf(0.0), Leaf(a), Leaf(b), Leaf(c)], Fun.If), m) == Ok(Num(a))
    ensures Eval(Node([Leaf(2.0), Leaf(a), Leaf(b), Leaf(c)], Fun.If), m) == Ok(Num(c))
  {
    EvalNode([Leaf(0.0), Leaf(a), Leaf(b), Leaf(c)], Fun.If, [0.0, a, b, c], m);
    IfSelects([0.0, a, b, c], m);
    EvalNode([Leaf(2.0), Leaf(a), Leaf(b), Leaf(c)], Fun.If, [2.0, a, b, c], m);
    IfSelects([2.0, a, b, c], m);
  }

  /** `kesk(1, 2, 3)` is 2, and `Add` with two children is their sum. */
  lemma MeanAndAddExamples(m: Math)
    ensures Eval(Node([Leaf(1.0), Leaf(2.0), Leaf(3.0)], Fun.Kesk), m) == Ok(Num(2.0))
    ensures Eval(Node([Leaf(5.0), Leaf(7.0)], Fun.Add), m) == Ok(Num(12.0))
  {
    EvalNode([Leaf(1.0), Leaf(2.0), Leaf(3.0)], Fun.Kesk, [1.0, 2.0, 3.0], m);
    MeanReduce([1.0, 2.0, 3.0], m);
    assert Kipac.Sum([1.0, 2.0, 3.0]) == 6.0;
    EvalNode([Leaf(5.0), Leaf(7.0)], Fun.Add, [5.0, 7.0], m);
    AddIsSum([5.0, 7.0], m);
    assert Kipac.Sum([5.0, 7.0]) == 12.0;
  }
}
