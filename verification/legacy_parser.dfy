/** The older shunting-yard parser (src/calc/parser.rs). It runs the same
    four stacks as the current one, with three differences: nodes are
    always built verbatim, a reduction's children come out in pop order
    (rightmost first), and a comma only counts an argument without
    reducing anything. Its tag mapping and fixed-arity table are smaller.

    Every `panic!`, `unimplemented!` and `unwrap` on an empty stack is a
    `LegacyError`. */
module LegacyParser {
  import opened Wrappers
  import opened Tokens
  import opened Syntax
  import Calc
  import Parser
  import Applicators

  type State = Parser.State

  datatype LegacyError =
    | GotEmpty                 // the `Empty` sentinel token
    | Unsupported(t: Token)    // `[` and `]`
    | NoArityCounter           // `arity.pop()`/`last_mut()` on an empty stack
    | NoFragment               // `node.pop()` on an empty stack

  /** `Fun::from` of the older revision. */
  function LegacyFun(t: Token): Fun {
    match t
    case Abs => Fun.Abs
    case Add => Fun.Add
    case Aikavali => Fun.Aikavali
    case Ceil => Fun.Ceil
    case Div => Fun.Div
    case Exp => Fun.Exp
    case Floor => Fun.Floor
    case If => Fun.If
    case Imod | Mod => Fun.Mod
    case Interpoloi => Fun.Interpoloi
    case Ipow | Pow => Fun.Pow
    case Kesk => Fun.Kesk
    case Ln => Fun.Ln
    case Log => Fun.Log
    case Max => Fun.Max
    case Min => Fun.Min
    case Mul => Fun.Mul
    case Sqrt => Fun.Sqrt
    case Sub => Fun.Sub
    case Sum => Fun.Sum
    case SS => Fun.SS
    case List => Fun.List
    case Plus => Fun.Plus
    case Minus => Fun.Minus
    case _ => Fun.Empty
  }

  /** `arity!` of the older revision: only the arithmetic operators and
      the signs have a fixed child count. */
  function LegacyArity(f: Fun): Option<nat> {
    match f
    case Add | Sub | Div | Mul | Mod | Pow => Some(2)
    case Minus | Plus => Some(1)
    case _ => None
  }

  function Reverse<T>(s: seq<T>): (r: seq<T>)
    ensures |r| == |s|
    ensures forall i :: 0 <= i < |s| ==> r[i] == s[|s| - 1 - i]
  {
    if |s| == 0 then [] else [s[|s| - 1]] + Reverse(s[..|s| - 1])
  }

  /** One reduction of the popped operator `op`: the top `n` fragments
      become the children of a new node, topmost first. */
  function Reduce(st: State, op: Token): (r: Result<State, LegacyError>)
    ensures r.Ok? ==> r.value.prev == st.prev && r.value.opr == st.opr
  {
    var fun := LegacyFun(op);
    var (n, arity) :- match LegacyArity(fun)
      case Some(k) => Ok((k, st.arity))
      case None =>
        if |st.arity| == 0 then Err(NoArityCounter)
        else Ok((st.arity[|st.arity| - 1], st.arity[..|st.arity| - 1]));
    if |st.node| < n then Err(NoFragment)
    else
      var children := Reverse(st.node[|st.node| - n..]);
      Ok(st.(node := st.node[..|st.node| - n] + [Node(children, fun)], arity := arity))
  }

  /** Reduces operators from the top until one at which `stop` halts,
      pushing that one back when `keep` holds. */
  function Unwind(st: State, stop: Parser.Stop, keep: bool): (r: Result<State, LegacyError>)
    ensures r.Ok? ==> r.value.prev == st.prev
    ensures r.Ok? ==>
      var k := Parser.LastStop(stop, st.opr);
      r.value.opr == st.opr[..if k < 0 then 0 else if keep then k + 1 else k]
    decreases |st.opr|
  {
    if |st.opr| == 0 then Ok(st)
    else
      var op := st.opr[|st.opr| - 1];
      var popped := st.(opr := st.opr[..|st.opr| - 1]);
      if Parser.Stops(stop, op) then Ok(if keep then st else popped)
      else
        var next :- Reduce(popped, op);
        var r := Unwind(next, stop, keep);
        assert popped.opr == st.opr[..|st.opr| - 1];
        r
  }

  /** `+` and `-`: binary after a value, signs elsewhere. */
  function HandleAdditive(st: State, t: Token): Result<State, LegacyError> {
    if Parser.AfterValue(st) then
      var s :- Unwind(st, Parser.AtParL, true);
      Ok(s.(opr := s.opr + [t]))
    else Ok(st.(opr := st.opr + [if t.Add? then Token.Plus else Token.Minus]))
  }

  function HandleMultiplicative(st: State, t: Token): Result<State, LegacyError> {
    var s :- Unwind(st, Parser.AtAdditive, true);
    Ok(s.(opr := s.opr + [t]))
  }

  /** The body of the token loop for one token, before `prev` is updated. */
  function Handle(st: State, t: Token): Result<State, LegacyError> {
    match t
    case Num(n) => Ok(st.(node := st.node + [Leaf(n)]))
    case Expr(p) => Ok(st.(node := st.node + [Get(p)]))
    case Empty => Err(GotEmpty)
    case Comma =>
      if |st.arity| == 0 then Err(NoArityCounter)
      else Ok(st.(arity := st.arity[..|st.arity| - 1] + [st.arity[|st.arity| - 1] + 1]))
    case ParL => Ok(st.(opr := st.opr + [ParL]))
    case ParR => Unwind(st, Parser.AtParL, false)
    case BrackL | BrackR => Err(Unsupported(t))
    case Add | Sub => HandleAdditive(st, t)
    case Mul | Div | Imod => HandleMultiplicative(st, t)
    case Ipow => Ok(st.(opr := st.opr + [Ipow]))
    case _ => Ok(st.(opr := st.opr + [t], arity := st.arity + [1]))
  }

  function Step(st: State, t: Token): (r: Result<State, LegacyError>)
    ensures r.Ok? ==> r.value.prev == st.prev + [t]
  {
    var s :- Handle(st, t);
    Ok(s.(prev := st.prev + [t]))
  }

  function Run(st: State, ts: seq<Token>): (r: Result<State, LegacyError>)
    ensures r.Ok? ==> r.value.prev == st.prev + ts
    decreases |ts|
  {
    if |ts| == 0 then Ok(st)
    else
      var next :- Step(st, ts[0]);
      var r := Run(next, ts[1..]);
      assert r.Ok? ==> r.value.prev == st.prev + [ts[0]] + ts[1..] == st.prev + ts;
      r
  }

  /** After the loop every operator is drained and the topmost fragment is
      the result; fragments below it are ignored. */
  function Finish(st: State): Result<Ast, LegacyError> {
    var s :- Unwind(st, Parser.Never, true);
    if |s.node| == 0 then Err(NoFragment) else Ok(s.node[|s.node| - 1])
  }

  /** `parse` of the older revision. */
  function Parse(ts: seq<Token>): Result<Ast, LegacyError> {
    var st :- Run(Parser.Initial, ts);
    Finish(st)
  }

  // ---- single steps ----

  /** A reduction takes the top `n` fragments and makes them the children
      of one verbatim node, the topmost fragment first. */
  lemma ReduceReverses(st: State, op: Token)
    requires Reduce(st, op).Ok?
    ensures var r := Reduce(st, op).value;
      var n := |st.node| + 1 - |r.node|;
      && 0 <= n <= |st.node|
      && (LegacyArity(LegacyFun(op)).Some? ==> n == LegacyArity(LegacyFun(op)).value && r.arity == st.arity)
      && (LegacyArity(LegacyFun(op)).None? ==>
            |st.arity| > 0 && n == st.arity[|st.arity| - 1] && r.arity == st.arity[..|st.arity| - 1])
      && r.node[..|st.node| - n] == st.node[..|st.node| - n]
      && r.node[|st.node| - n].Node? && r.node[|st.node| - n].fun == LegacyFun(op)
      && var cs := r.node[|st.node| - n].children;
         |cs| == n && forall i :: 0 <= i < n ==> cs[i] == st.node[|st.node| - 1 - i]
  {
  }

  /** A comma counts one more argument and leaves the operator and
      fragment stacks alone; with no counter it is an error. */
  lemma CommaOnlyCounts(st: State)
    ensures |st.arity| == 0 ==> Handle(st, Comma) == Err(NoArityCounter)
    ensures |st.arity| > 0 ==>
      && Handle(st, Comma).Ok?
      && var s := Handle(st, Comma).value;
         s.opr == st.opr && s.node == st.node && |s.arity| == |st.arity|
         && s.arity[..|st.arity| - 1] == st.arity[..|st.arity| - 1]
         && s.arity[|st.arity| - 1] == st.arity[|st.arity| - 1] + 1
  {
  }

  /** `Empty`, `[` and `]` abort the parse. */
  lemma Failures(st: State)
    ensures Handle(st, Token.Empty) == Err(GotEmpty)
    ensures Handle(st, BrackL) == Err(Unsupported(BrackL))
    ensures Handle(st, BrackR) == Err(Unsupported(BrackR))
  {
  }

  /** `+` and `-` are binary exactly after a value; then everything above
      the innermost open parenthesis is reduced first. Elsewhere they
      become signs and nothing is reduced. */
  lemma AdditiveStep(st: State, t: Token)
    requires t.Add? || t.Sub?
    ensures var r := Handle(st, t);
      && (Parser.AfterValue(st) && r.Ok? ==>
            r.value.opr == st.opr[..Parser.LastStop(Parser.AtParL, st.opr) + 1] + [t])
      && (!Parser.AfterValue(st) ==>
            r == Ok(st.(opr := st.opr + [if t.Add? then Token.Plus else Token.Minus])))
  {
    assert Handle(st, t) == HandleAdditive(st, t);
  }

  /** `*`, `/` and infix modulo stop reducing below `+`, `-` or `(`. */
  lemma MultiplicativeStep(st: State, t: Token)
    requires t.Mul? || t.Div? || t.Imod?
    ensures var r := Handle(st, t);
      r.Ok? ==> r.value.opr == st.opr[..Parser.LastStop(Parser.AtAdditive, st.opr) + 1] + [t]
  {
    assert Handle(st, t) == HandleMultiplicative(st, t);
  }

  /** The result is the topmost fragment left after draining; the
      fragments under it are dropped without complaint. */
  lemma FinishTakesTop(st: State)
    ensures var r := Unwind(st, Parser.Never, true);
      r.Ok? ==>
        && r.value.opr == []
        && (|r.value.node| == 0 ==> Finish(st) == Err(NoFragment))
        && (|r.value.node| > 0 ==> Finish(st) == Ok(r.value.node[|r.value.node| - 1]))
  {
  }

  // ---- the older parser builds the mirror image of the newer one ----

  /** A tree with the children of every node reversed. */
  function Mirror(a: Ast): Ast
    decreases a, 1
  {
    match a
    case Node(cs, f) => Node(Reverse(MirrorAll(cs)), f)
    case _ => a
  }

  function MirrorAll(cs: seq<Ast>): (r: seq<Ast>)
    ensures |r| == |cs| && forall i :: 0 <= i < |cs| ==> r[i] == Mirror(cs[i])
    decreases cs, 0
  {
    if |cs| == 0 then [] else MirrorAll(cs[..|cs| - 1]) + [Mirror(cs[|cs| - 1])]
  }

  /** Mirroring twice gives the tree back. */
  lemma {:induction false} MirrorInvolutive(a: Ast)
    ensures Mirror(Mirror(a)) == a
    decreases a
  {
    match a
    case Node(cs, f) =>
      forall i | 0 <= i < |cs| {
        MirrorInvolutive(cs[i]);
      }
      var back := Mirror(Mirror(a)).children;
      assert |back| == |cs|;
      assert forall i :: 0 <= i < |cs| ==> back[i] == Mirror(Mirror(cs[i]));
      assert back == cs;
    case _ =>
  }

  /** Operators both parsers treat alike: parentheses, the arithmetic
      operators and the signs. */
  predicate Arith(t: Token) {
    t.ParL? || t.Add? || t.Sub? || t.Mul? || t.Div? || t.Imod? || t.Ipow? || t.Plus? || t.Minus?
  }

  /** Input of plain arithmetic: numbers, getters, parentheses and the
      infix operators. */
  predicate ArithInput(t: Token) {
    t.Num? || t.Expr? || t.ParL? || t.ParR? || t.Add? || t.Sub? || t.Mul? || t.Div? || t.Imod? || t.Ipow?
  }

  /** An older-parser state `l` mirrors a newer-parser state `n`. */
  predicate Mirrored(l: State, n: State) {
    && l.prev == n.prev && l.opr == n.opr && l.arity == n.arity == []
    && |l.node| == |n.node|
    && (forall i :: 0 <= i < |l.node| ==> l.node[i] == Mirror(n.node[i]))
    && (forall j :: 0 <= j < |l.opr| ==> Arith(l.opr[j]))
  }

  /** On the shared operators the two revisions agree on tag and arity;
      an open parenthesis maps to no tag and no fixed arity in both. */
  lemma ArithAgrees(op: Token)
    requires Arith(op)
    ensures LegacyFun(op) == FunFrom(op)
    ensures LegacyArity(LegacyFun(op)) == FixedArity(FunFrom(op))
    ensures op.ParL? <==> LegacyArity(LegacyFun(op)).None?
  {
    if op.ParL? {
    } else if op.Add? || op.Sub? {
    } else if op.Mul? || op.Div? || op.Imod? {
    } else {
    }
  }

  lemma ReduceMirrored(l: State, n: State, op: Token, env: Applicators.Env)
    requires Mirrored(l, n) && Arith(op)
    ensures Reduce(l, op).Ok? <==> Parser.Reduce(n, op, Applicators.Identity, env).Ok?
    ensures Reduce(l, op).Ok? ==> Mirrored(Reduce(l, op).value, Parser.Reduce(n, op, Applicators.Identity, env).value)
  {
    ArithAgrees(op);
    if !op.ParL? && LegacyArity(LegacyFun(op)).value <= |l.node| {
      ReduceMirroredFits(l, n, op, env);
    }
  }

  /** `ReduceMirrored` for an operator whose fragments are all present. */
  lemma ReduceMirroredFits(l: State, n: State, op: Token, env: Applicators.Env)
    requires Mirrored(l, n) && Arith(op) && !op.ParL?
    requires LegacyArity(LegacyFun(op)).Some? && LegacyArity(LegacyFun(op)).value <= |l.node|
    ensures Reduce(l, op).Ok? && Parser.Reduce(n, op, Applicators.Identity, env).Ok?
    ensures Mirrored(Reduce(l, op).value, Parser.Reduce(n, op, Applicators.Identity, env).value)
  {
    var f := LegacyFun(op);
    var k := LegacyArity(f).value;
    var m := |l.node| - k;
    var cs := n.node[m..];
    LegacyReduceFixed(l, op, k);
    ParserReduceFixed(n, op, k, env);
    MirrorSuffix(l.node, n.node, m);
    var x := Node(Reverse(l.node[m..]), f);
    assert x == Mirror(Node(cs, f));
    MirrorFold(l.node, n.node, m, x, Node(cs, f));
  }

  /** The older parser reduces an operator of fixed arity `k` by taking
      the top `k` fragments, reversed. */
  lemma LegacyReduceFixed(l: State, op: Token, k: nat)
    requires LegacyArity(LegacyFun(op)) == Some(k) && k <= |l.node|
    ensures var m := |l.node| - k;
      Reduce(l, op) == Ok(l.(node := l.node[..m] + [Node(Reverse(l.node[m..]), LegacyFun(op))]))
  {
  }

  /** The newer parser, building verbatim, reduces a shared operator of
      fixed arity `k` by taking the top `k` fragments in order. */
  lemma ParserReduceFixed(n: State, op: Token, k: nat, env: Applicators.Env)
    requires Arith(op) && LegacyArity(LegacyFun(op)) == Some(k) && k <= |n.node|
    ensures var m := |n.node| - k;
      Parser.Reduce(n, op, Applicators.Identity, env) == Ok(n.(node := n.node[..m] + [Node(n.node[m..], LegacyFun(op))]))
  {
    ArithAgrees(op);
  }

  /** The top fragments of mirrored stacks are mirrored as a sequence. */
  lemma MirrorSuffix(ls: seq<Ast>, ns: seq<Ast>, m: nat)
    requires |ls| == |ns| && m <= |ls|
    requires forall i :: 0 <= i < |ls| ==> ls[i] == Mirror(ns[i])
    ensures ls[m..] == MirrorAll(ns[m..])
  {
    var r := MirrorAll(ns[m..]);
    assert forall i :: 0 <= i < |r| ==> ls[m..][i] == r[i];
  }

  /** Replacing the top fragments of mirrored stacks by mirrored nodes
      keeps them mirrored. */
  lemma MirrorFold(ls: seq<Ast>, ns: seq<Ast>, m: nat, x: Ast, y: Ast)
    requires |ls| == |ns| && m <= |ls| && x == Mirror(y)
    requires forall i :: 0 <= i < |ls| ==> ls[i] == Mirror(ns[i])
    ensures forall i :: 0 <= i < m + 1 ==> (ls[..m] + [x])[i] == Mirror((ns[..m] + [y])[i])
  {
  }

  lemma UnwindMirrored(l: State, n: State, stop: Parser.Stop, keep: bool, env: Applicators.Env)
    requires Mirrored(l, n)
    ensures Unwind(l, stop, keep).Ok? <==> Parser.Unwind(n, stop, keep, Applicators.Identity, env).Ok?
    ensures Unwind(l, stop, keep).Ok? ==>
      Mirrored(Unwind(l, stop, keep).value, Parser.Unwind(n, stop, keep, Applicators.Identity, env).value)
    decreases |l.opr|
  {
    if |l.opr| > 0 {
      var op := l.opr[|l.opr| - 1];
      var lp := l.(opr := l.opr[..|l.opr| - 1]);
      var np := n.(opr := n.opr[..|n.opr| - 1]);
      assert Mirrored(lp, np);
      if !Parser.Stops(stop, op) {
        ReduceMirrored(lp, np, op, env);
        UnwindOnce(l, n, stop, keep, env);
        if Reduce(lp, op).Ok? {
          UnwindMirrored(Reduce(lp, op).value, Parser.Reduce(np, op, Applicators.Identity, env).value, stop, keep, env);
        }
      }
    }
  }

  /** Both revisions' `Unwind`, unrolled once past an operator they reduce. */
  lemma UnwindOnce(l: State, n: State, stop: Parser.Stop, keep: bool, env: Applicators.Env)
    requires |l.opr| > 0 && |n.opr| > 0 && !Parser.Stops(stop, l.opr[|l.opr| - 1])
    requires n.opr[|n.opr| - 1] == l.opr[|l.opr| - 1]
    ensures var op := l.opr[|l.opr| - 1];
      var r := Reduce(l.(opr := l.opr[..|l.opr| - 1]), op);
      Unwind(l, stop, keep) == if r.Err? then Err(r.error) else Unwind(r.value, stop, keep)
    ensures var op := n.opr[|n.opr| - 1];
      var r := Parser.Reduce(n.(opr := n.opr[..|n.opr| - 1]), op, Applicators.Identity, env);
      Parser.Unwind(n, stop, keep, Applicators.Identity, env)
        == if r.Err? then Err(r.error) else Parser.Unwind(r.value, stop, keep, Applicators.Identity, env)
  {
  }

  lemma AdditiveMirrored(l: State, n: State, t: Token, env: Applicators.Env)
    requires Mirrored(l, n) && (t.Add? || t.Sub?)
    ensures HandleAdditive(l, t).Ok? <==> Parser.HandleAdditive(n, t, Applicators.Identity, env).Ok?
    ensures HandleAdditive(l, t).Ok? ==>
      Mirrored(HandleAdditive(l, t).value, Parser.HandleAdditive(n, t, Applicators.Identity, env).value)
  {
    if Parser.AfterValue(l) {
      UnwindPushMirrored(l, n, Parser.AtParL, t, env);
    } else {
      PushMirrored(l, n, if t.Add? then Token.Plus else Token.Minus);
    }
  }

  lemma MultiplicativeMirrored(l: State, n: State, t: Token, env: Applicators.Env)
    requires Mirrored(l, n) && (t.Mul? || t.Div? || t.Imod?)
    ensures HandleMultiplicative(l, t).Ok? <==> Parser.HandleMultiplicative(n, t, Applicators.Identity, env).Ok?
    ensures HandleMultiplicative(l, t).Ok? ==>
      Mirrored(HandleMultiplicative(l, t).value, Parser.HandleMultiplicative(n, t, Applicators.Identity, env).value)
  {
    UnwindPushMirrored(l, n, Parser.AtAdditive, t, env);
  }

  /** Draining to `stop` and then pushing `t` keeps two states mirrored. */
  lemma UnwindPushMirrored(l: State, n: State, stop: Parser.Stop, t: Token, env: Applicators.Env)
    requires Mirrored(l, n) && Arith(t)
    ensures var u1, u2 := Unwind(l, stop, true), Parser.Unwind(n, stop, true, Applicators.Identity, env);
      && (u1.Ok? <==> u2.Ok?)
      && (u1.Ok? ==> Mirrored(u1.value.(opr := u1.value.opr + [t]), u2.value.(opr := u2.value.opr + [t])))
  {
    UnwindMirrored(l, n, stop, true, env);
    var u1, u2 := Unwind(l, stop, true), Parser.Unwind(n, stop, true, Applicators.Identity, env);
    if u1.Ok? {
      PushMirrored(u1.value, u2.value, t);
    }
  }

  /** Pushing the same operator keeps two states mirrored. */
  lemma PushMirrored(l: State, n: State, t: Token)
    requires Mirrored(l, n) && Arith(t)
    ensures Mirrored(l.(opr := l.opr + [t]), n.(opr := n.opr + [t]))
  {
  }

  lemma HandleMirrored(l: State, n: State, t: Token, env: Applicators.Env)
    requires Mirrored(l, n) && ArithInput(t)
    ensures Handle(l, t).Ok? <==> Parser.Handle(n, t, Applicators.Identity, env).Ok?
    ensures Handle(l, t).Ok? ==> Mirrored(Handle(l, t).value, Parser.Handle(n, t, Applicators.Identity, env).value)
  {
    if t.Add? || t.Sub? {
      HandleMirroredAdditive(l, n, t, env);
    } else if t.Mul? || t.Div? || t.Imod? {
      HandleMirroredMultiplicative(l, n, t, env);
    } else if t.ParR? {
      UnwindMirrored(l, n, Parser.AtParL, false, env);
      HandleClose(l, n, t, env);
    } else {
      HandleMirroredOperand(l, n, t, env);
    }
  }

  /** `HandleMirrored` for operands, `(` and infix `Ipow`. */
  lemma HandleMirroredOperand(l: State, n: State, t: Token, env: Applicators.Env)
    requires Mirrored(l, n) && (t.Num? || t.Expr? || t.ParL? || t.Ipow?)
    ensures Handle(l, t).Ok? <==> Parser.Handle(n, t, Applicators.Identity, env).Ok?
    ensures Handle(l, t).Ok? ==> Mirrored(Handle(l, t).value, Parser.Handle(n, t, Applicators.Identity, env).value)
  {
    var app := Applicators.Identity;
    match t
    case Num(x) =>
      assert Handle(l, t) == Ok(l.(node := l.node + [Leaf(x)]));
      assert Parser.Handle(n, t, app, env) == Ok(n.(node := n.node + [Leaf(x)]));
    case Expr(p) =>
      assert Handle(l, t) == Ok(l.(node := l.node + [Get(p)]));
      assert Parser.Handle(n, t, app, env) == Ok(n.(node := n.node + [Get(p)]));
    case ParL =>
      assert Handle(l, t) == Ok(l.(opr := l.opr + [ParL]));
      assert Parser.Handle(n, t, app, env) == Ok(n.(opr := n.opr + [ParL]));
    case Ipow =>
      assert Handle(l, t) == Ok(l.(opr := l.opr + [Ipow]));
      assert Parser.Handle(n, t, app, env) == Ok(n.(opr := n.opr + [Ipow]));
  }

  /** `)` drains to the innermost `(` in both revisions. */
  lemma HandleClose(l: State, n: State, t: Token, env: Applicators.Env)
    requires t.ParR?
    ensures Handle(l, t) == Unwind(l, Parser.AtParL, false)
    ensures Parser.Handle(n, t, Applicators.Identity, env) == Parser.Unwind(n, Parser.AtParL, false, Applicators.Identity, env)
  {
    Parser.HandleIsClose(n, t, Applicators.Identity, env);
    LegacyHandleClose(l, t);
  }

  lemma LegacyHandleClose(l: State, t: Token)
    requires t.ParR?
    ensures Handle(l, t) == Unwind(l, Parser.AtParL, false)
  {
  }

  /** `HandleMirrored` for `+` and `-`. */
  lemma HandleMirroredAdditive(l: State, n: State, t: Token, env: Applicators.Env)
    requires Mirrored(l, n) && (t.Add? || t.Sub?)
    ensures Handle(l, t).Ok? <==> Parser.Handle(n, t, Applicators.Identity, env).Ok?
    ensures Handle(l, t).Ok? ==> Mirrored(Handle(l, t).value, Parser.Handle(n, t, Applicators.Identity, env).value)
  {
    AdditiveMirrored(l, n, t, env);
    assert Handle(l, t) == HandleAdditive(l, t);
    Parser.HandleIsAdditive(n, t, Applicators.Identity, env);
  }

  /** `HandleMirrored` for `*`, `/` and the infix modulo. */
  lemma HandleMirroredMultiplicative(l: State, n: State, t: Token, env: Applicators.Env)
    requires Mirrored(l, n) && (t.Mul? || t.Div? || t.Imod?)
    ensures Handle(l, t).Ok? <==> Parser.Handle(n, t, Applicators.Identity, env).Ok?
    ensures Handle(l, t).Ok? ==> Mirrored(Handle(l, t).value, Parser.Handle(n, t, Applicators.Identity, env).value)
  {
    MultiplicativeMirrored(l, n, t, env);
    assert Handle(l, t) == HandleMultiplicative(l, t);
    Parser.HandleIsMultiplicative(n, t, Applicators.Identity, env);
  }

  lemma StepMirrored(l: State, n: State, t: Token, env: Applicators.Env)
    requires Mirrored(l, n) && ArithInput(t)
    ensures Step(l, t).Ok? <==> Parser.Step(n, t, Applicators.Identity, env).Ok?
    ensures Step(l, t).Ok? ==> Mirrored(Step(l, t).value, Parser.Step(n, t, Applicators.Identity, env).value)
  {
    HandleMirrored(l, n, t, env);
  }

  lemma {:induction false} RunMirrored(l: State, n: State, ts: seq<Token>, env: Applicators.Env)
    requires Mirrored(l, n)
    requires forall i :: 0 <= i < |ts| ==> ArithInput(ts[i])
    ensures Run(l, ts).Ok? <==> Parser.Run(n, ts, Applicators.Identity, env).Ok?
    ensures Run(l, ts).Ok? ==> Mirrored(Run(l, ts).value, Parser.Run(n, ts, Applicators.Identity, env).value)
    decreases |ts|
  {
    if |ts| > 0 {
      StepMirrored(l, n, ts[0], env);
      if Step(l, ts[0]).Ok? {
        RunMirrored(Step(l, ts[0]).value, Parser.Step(n, ts[0], Applicators.Identity, env).value, ts[1..], env);
      }
    }
  }

  /** On plain arithmetic the two revisions build mirror-image trees:
      whenever the newer parser (building verbatim) succeeds, the older
      one succeeds with the same tree, every node's children reversed.
      The older parser fails only where the newer one does; it may succeed
      where the newer one rejects leftover fragments. */
  lemma ParsersMirror(ts: seq<Token>, env: Applicators.Env)
    requires forall i :: 0 <= i < |ts| ==> ArithInput(ts[i])
    ensures Parser.ParseFn(ts, Applicators.Identity, env).Ok? ==>
      Parse(ts) == Ok(Mirror(Parser.ParseFn(ts, Applicators.Identity, env).value))
    ensures Parse(ts).Err? ==> Parser.ParseFn(ts, Applicators.Identity, env).Err?
  {
    var app := Applicators.Identity;
    assert Mirrored(Parser.Initial, Parser.Initial);
    RunMirrored(Parser.Initial, Parser.Initial, ts, env);
    if Run(Parser.Initial, ts).Ok? {
      var l, n := Run(Parser.Initial, ts).value, Parser.Run(Parser.Initial, ts, app, env).value;
      UnwindMirrored(l, n, Parser.Never, true, env);
    }
  }

  // ---- worked examples ----

  /** `x - y` in both revisions: the older parser's reversed children are
      what the evaluator's operand order expects, so it computes `x - y`;
      the newer parser keeps the written order and the same evaluator then
      computes `y - x` (`12-2` gives 10 and -10 respectively). */
  lemma SubtractionAcrossRevisions(x: real, y: real, env: Applicators.Env)
    ensures var ts := [Token.Num(x), Token.Sub, Token.Num(y)];
      && Parser.ParseFn(ts, Applicators.Identity, env) == Ok(Node([Leaf(x), Leaf(y)], Fun.Sub))
      && Parse(ts) == Ok(Node([Leaf(y), Leaf(x)], Fun.Sub))
    ensures Calc.Eval(Node([Leaf(y), Leaf(x)], Fun.Sub), env.math) == Ok(Calc.Num(x - y))
    ensures Calc.Eval(Node([Leaf(x), Leaf(y)], Fun.Sub), env.math) == Ok(Calc.Num(y - x))
  {
    SubtractionParses(x, y, env);
    Calc.SubtractsFirstFromSecond(y, x, env.math);
    Calc.SubtractsFirstFromSecond(x, y, env.math);
  }

  /** The parsing half of `SubtractionAcrossRevisions`. */
  lemma SubtractionParses(x: real, y: real, env: Applicators.Env)
    ensures var ts := [Token.Num(x), Token.Sub, Token.Num(y)];
      && Parser.ParseFn(ts, Applicators.Identity, env) == Ok(Node([Leaf(x), Leaf(y)], Fun.Sub))
      && Parse(ts) == Ok(Node([Leaf(y), Leaf(x)], Fun.Sub))
  {
    var ts := [Token.Num(x), Token.Sub, Token.Num(y)];
    Parser.BinaryExample(x, Token.Sub, y, env);
    assert FunFrom(Token.Sub) == Fun.Sub;
    BinaryInput(x, Token.Sub, y);
    ParsersMirror(ts, env);
    MirrorPair(x, y, Fun.Sub);
  }

  /** A number, an infix operator and a number are plain arithmetic. */
  lemma BinaryInput(x: real, t: Token, y: real)
    requires ArithInput(t)
    ensures forall i :: 0 <= i < 3 ==> ArithInput([Token.Num(x), t, Token.Num(y)][i])
  {
  }

  /** The mirror image of a node over two leaves swaps them. */
  lemma MirrorPair(x: real, y: real, f: Fun)
    ensures Mirror(Node([Leaf(x), Leaf(y)], f)) == Node([Leaf(y), Leaf(x)], f)
  {
    assert MirrorAll([Leaf(x), Leaf(y)]) == [Leaf(x), Leaf(y)];
    assert Reverse([Leaf(x), Leaf(y)]) == [Leaf(y), Leaf(x)];
  }

  /** Two numbers with no operator: the older parser answers with the
      last one, the newer one rejects the leftover fragment. */
  lemma LeftoverExample(x: real, y: real, env: Applicators.Env)
    ensures Parse([Token.Num(x), Token.Num(y)]) == Ok(Leaf(y))
    ensures Parser.ParseFn([Token.Num(x), Token.Num(y)], Applicators.Identity, env) == Err(Parser.TooManyMembers(2))
  {
    var ts := [Token.Num(x), Token.Num(y)];
    var s2 := Parser.State(ts, [], [Leaf(x), Leaf(y)], []);
    LegacyTwoNumbers(x, y);
    assert Finish(s2) == Ok(Leaf(y));
    NewerTwoNumbers(x, y, env);
    Parser.Aborts(s2, Applicators.Identity, env);
  }

  /** The older parser's token loop on two numbers stacks both. */
  lemma LegacyTwoNumbers(x: real, y: real)
    ensures Run(Parser.Initial, [Token.Num(x), Token.Num(y)]) == Ok(Parser.State([Token.Num(x), Token.Num(y)], [], [Leaf(x), Leaf(y)], []))
  {
    var ts := [Token.Num(x), Token.Num(y)];
    var s1 := Parser.State([Token.Num(x)], [], [Leaf(x)], []);
    var s2 := Parser.State(ts, [], [Leaf(x), Leaf(y)], []);
    assert [] + [Leaf(x)] == [Leaf(x)] && [] + [Token.Num(x)] == [Token.Num(x)];
    assert s1.prev + [Token.Num(y)] == ts && s1.node + [Leaf(y)] == s2.node;
    StepNum(Parser.Initial, x);
    StepNum(s1, y);
    RunStep(Parser.Initial, ts, s1);
    RunStep(s1, ts[1..], s2);
    assert ts[1..][1..] == [];
  }

  lemma StepNum(st: State, x: real)
    ensures Step(st, Token.Num(x)) == Ok(Parser.State(st.prev + [Token.Num(x)], st.opr, st.node + [Leaf(x)], st.arity))
  {
  }

  lemma RunStep(st: State, ts: seq<Token>, next: State)
    requires |ts| > 0 && Step(st, ts[0]) == Ok(next)
    ensures Run(st, ts) == Run(next, ts[1..])
  {
  }

  /** The newer parser's token loop on two numbers stacks both. */
  lemma NewerTwoNumbers(x: real, y: real, env: Applicators.Env)
    ensures Parser.Run(Parser.Initial, [Token.Num(x), Token.Num(y)], Applicators.Identity, env)
      == Ok(Parser.State([Token.Num(x), Token.Num(y)], [], [Leaf(x), Leaf(y)], []))
  {
    var ts := [Token.Num(x), Token.Num(y)];
    var s1 := Parser.State([Token.Num(x)], [], [Leaf(x)], []);
    var s2 := Parser.State(ts, [], [Leaf(x), Leaf(y)], []);
    assert [] + [Leaf(x)] == [Leaf(x)] && [] + [Token.Num(x)] == [Token.Num(x)];
    assert s1.prev + [Token.Num(y)] == ts && s1.node + [Leaf(y)] == s2.node;
    Parser.StepNum(Parser.Initial, x, Applicators.Identity, env);
    Parser.StepNum(s1, y, Applicators.Identity, env);
    Parser.RunStep(Parser.Initial, ts, Applicators.Identity, env, s1);
    Parser.RunStep(s1, ts[1..], Applicators.Identity, env, s2);
    assert ts[1..][1..] == [];
  }
}
