/** `lispify` (src/calc/lisp.rs:6-40): a single pass over the tokens that
    moves the first infix operator of every level in front of the operand
    emitted just before it and drops the later operators of that level,
    so `a + b + c` becomes `+ a b c`.

    Two flags drive it: `infix` (an operator has already been placed at
    this level) and `pall` (an opening parenthesis has been seen and not
    yet closed by a `)` that restored `infix`). */
module Lisp {
  import opened Wrappers
  import opened Tokens
  import Lexer

  datatype LispState = LispState(infix: bool, pall: bool, out: seq<Token>)

  /** The `new.pop().unwrap()` of an operator with nothing emitted yet. */
  datatype LispError = NothingBefore(op: Token)

  const Start := LispState(false, false, [])

  /** The loop body for one token. */
  function LispStep(st: LispState, t: Token): Result<LispState, LispError> {
    if IsInfixOperator(t) then
      if st.infix then Ok(st)
      else if |st.out| == 0 then Err(NothingBefore(t))
      else
        var n := |st.out|;
        Ok(LispState(true, st.pall, st.out[..n - 1] + [t, st.out[n - 1]]))
    else if t.ParL? then Ok(LispState(false, true, st.out + [t]))
    else if t.ParR? then
      if st.pall then Ok(LispState(true, false, st.out + [t]))
      else Ok(st.(out := st.out + [t]))
    else if t.Comma? then Ok(st.(infix := false, out := st.out + [t]))
    else Ok(st.(out := st.out + [t]))
  }

  function LispRun(st: LispState, ts: seq<Token>): Result<LispState, LispError>
    decreases |ts|
  {
    if |ts| == 0 then Ok(st)
    else
      var next :- LispStep(st, ts[0]);
      LispRun(next, ts[1..])
  }

  /** `lispify`. */
  function Lispify(ts: seq<Token>): Result<seq<Token>, LispError> {
    var st :- LispRun(Start, ts);
    Ok(st.out)
  }

  /** The tokens that are not infix operators, in order. */
  function Operands(ts: seq<Token>): (r: seq<Token>)
    ensures |r| <= |ts|
    ensures forall i :: 0 <= i < |r| ==> !IsInfixOperator(r[i])
  {
    if |ts| == 0 then []
    else Operands(ts[..|ts| - 1]) + (if IsInfixOperator(ts[|ts| - 1]) then [] else [ts[|ts| - 1]])
  }

  /** The number of infix operators. */
  function OperatorCount(ts: seq<Token>): nat {
    if |ts| == 0 then 0
    else OperatorCount(ts[..|ts| - 1]) + (if IsInfixOperator(ts[|ts| - 1]) then 1 else 0)
  }

  lemma {:induction false} OperandsAppend(a: seq<Token>, b: seq<Token>)
    ensures Operands(a + b) == Operands(a) + Operands(b)
    ensures OperatorCount(a + b) == OperatorCount(a) + OperatorCount(b)
    decreases |b|
  {
    if |b| == 0 {
      assert a + b == a;
    } else {
      var c := b[..|b| - 1];
      assert (a + b)[..|a + b| - 1] == a + c;
      assert (a + b)[|a + b| - 1] == b[|b| - 1];
      OperandsAppend(a, c);
    }
  }

  /** Every token is an operand or an operator. */
  lemma {:induction false} OperandsAndOperators(ts: seq<Token>)
    ensures |Operands(ts)| + OperatorCount(ts) == |ts|
  {
    if |ts| > 0 {
      OperandsAndOperators(ts[..|ts| - 1]);
    }
  }

  // ---- one step ----

  /** The first operator of a level is placed just before the token
      emitted last; a later one, while `infix` holds, is dropped; with
      nothing emitted the pass fails. */
  lemma OperatorStep(st: LispState, t: Token)
    requires IsInfixOperator(t)
    ensures st.infix ==> LispStep(st, t) == Ok(st)
    ensures !st.infix && |st.out| == 0 ==> LispStep(st, t) == Err(NothingBefore(t))
    ensures !st.infix && |st.out| > 0 ==>
      && LispStep(st, t).Ok?
      && var r := LispStep(st, t).value;
         r.infix && r.pall == st.pall && |r.out| == |st.out| + 1
         && r.out[..|st.out| - 1] == st.out[..|st.out| - 1]
         && r.out[|st.out| - 1] == t && r.out[|st.out|] == st.out[|st.out| - 1]
  {
  }

  /** `(` and `,` start a new level; `(` also arms `pall`, and the `)`
      that finds it armed marks the outer level as having its operator.
      Every non-operator is copied to the end of the output. */
  lemma OperandStep(st: LispState, t: Token)
    requires !IsInfixOperator(t)
    ensures LispStep(st, t).Ok? && LispStep(st, t).value.out == st.out + [t]
    ensures t.ParL? ==> !LispStep(st, t).value.infix && LispStep(st, t).value.pall
    ensures t.Comma? ==> !LispStep(st, t).value.infix && LispStep(st, t).value.pall == st.pall
    ensures t.ParR? && st.pall ==> LispStep(st, t).value.infix && !LispStep(st, t).value.pall
    ensures t.ParR? && !st.pall ==> LispStep(st, t).value == st.(out := st.out + [t])
    ensures !t.ParL? && !t.ParR? && !t.Comma? ==> LispStep(st, t).value == st.(out := st.out + [t])
  {
  }

  /** A step keeps the operands in order and never adds an operator
      beyond the one it reads. */
  lemma StepKeepsOperands(st: LispState, t: Token)
    requires LispStep(st, t).Ok?
    ensures var r := LispStep(st, t).value;
      && Operands(r.out) == Operands(st.out + [t])
      && OperatorCount(r.out) <= OperatorCount(st.out + [t])
      && |r.out| <= |st.out| + 1
  {
    if IsInfixOperator(t) && !st.infix {
      var n := |st.out|;
      assert LispStep(st, t).value.out == st.out[..n - 1] + [t, st.out[n - 1]];
      OperatorMoved(st.out[..n - 1], st.out[n - 1], t);
      assert st.out[..n - 1] + [st.out[n - 1]] == st.out;
    } else if IsInfixOperator(t) {
      assert LispStep(st, t).value.out == st.out;
      OperatorDropped(st.out, t);
    } else {
      OperandStep(st, t);
    }
  }

  /** Moving an operator in front of the last token changes neither the
      operands nor the operator count. */
  lemma OperatorMoved(pre: seq<Token>, last: Token, t: Token)
    requires IsInfixOperator(t)
    ensures Operands(pre + [t, last]) == Operands(pre + [last] + [t])
    ensures OperatorCount(pre + [t, last]) == OperatorCount(pre + [last] + [t])
  {
    OperandsAppend(pre, [t, last]);
    OperandsAppend(pre, [last]);
    OperandsAppend(pre + [last], [t]);
    assert [t, last] == [t] + [last];
    OperandsAppend([t], [last]);
    assert [t][..0] == [];
  }

  /** A dropped operator takes no operand with it. */
  lemma OperatorDropped(out: seq<Token>, t: Token)
    requires IsInfixOperator(t)
    ensures Operands(out + [t]) == Operands(out)
    ensures OperatorCount(out + [t]) == OperatorCount(out) + 1
  {
    OperandsAppend(out, [t]);
    assert [t][..0] == [];
  }

  lemma {:induction false} RunKeepsOperands(st: LispState, ts: seq<Token>)
    requires LispRun(st, ts).Ok?
    ensures var r := LispRun(st, ts).value;
      && Operands(r.out) == Operands(st.out + ts)
      && OperatorCount(r.out) <= OperatorCount(st.out + ts)
      && |r.out| <= |st.out| + |ts|
    decreases |ts|
  {
    if |ts| > 0 {
      var next := LispStep(st, ts[0]).value;
      StepKeepsOperands(st, ts[0]);
      RunKeepsOperands(next, ts[1..]);
      assert st.out + ts == (st.out + [ts[0]]) + ts[1..];
      OperandsAppend(next.out, ts[1..]);
      OperandsAppend(st.out + [ts[0]], ts[1..]);
    } else {
      assert st.out + ts == st.out;
    }
  }

  /** `lispify` copies every non-operator token in its original order and
      keeps at most as many operators as it read: the output is the input
      less exactly the operators it dropped. */
  lemma LispifyKeepsOperands(ts: seq<Token>)
    requires Lispify(ts).Ok?
    ensures Operands(Lispify(ts).value) == Operands(ts)
    ensures OperatorCount(Lispify(ts).value) <= OperatorCount(ts)
    ensures |Lispify(ts).value| == |ts| - (OperatorCount(ts) - OperatorCount(Lispify(ts).value))
  {
    RunKeepsOperands(Start, ts);
    assert Start.out + ts == ts;
    OperandsAndOperators(ts);
    OperandsAndOperators(Lispify(ts).value);
  }

  /** An expression that starts with an operator cannot be rewritten. */
  lemma LeadingOperatorFails(t: Token, ts: seq<Token>)
    requires IsInfixOperator(t)
    ensures Lispify([t] + ts) == Err(NothingBefore(t))
  {
    assert ([t] + ts)[0] == t;
  }

  // ---- worked examples ----

  /** Running two pieces one after the other is running their
      concatenation. */
  lemma {:induction false} RunAppend(st: LispState, x: seq<Token>, y: seq<Token>, mid: LispState)
    requires LispRun(st, x) == Ok(mid)
    ensures LispRun(st, x + y) == LispRun(mid, y)
    decreases |x|
  {
    if |x| == 0 {
      assert x + y == y;
    } else {
      var next := LispStep(st, x[0]).value;
      assert (x + y)[0] == x[0];
      assert (x + y)[1..] == x[1..] + y;
      RunAppend(next, x[1..], y, mid);
    }
  }

  lemma RunStep(st: LispState, ts: seq<Token>, next: LispState)
    requires |ts| > 0 && LispStep(st, ts[0]) == Ok(next)
    ensures LispRun(st, ts) == LispRun(next, ts[1..])
  {
  }

  /** The first operator of a level moves before the last token emitted. */
  lemma MoveBefore(pre: seq<Token>, x: Token, t: Token, pall: bool)
    requires IsInfixOperator(t)
    ensures LispStep(LispState(false, pall, pre + [x]), t) == Ok(LispState(true, pall, pre + [t, x]))
  {
    var out := pre + [x];
    assert out[..|out| - 1] == pre && out[|out| - 1] == x;
  }

  /** Two tokens that each step to the next state start the run. */
  lemma RunTwo(st: LispState, ts: seq<Token>, s1: LispState, s2: LispState)
    requires |ts| >= 2 && LispStep(st, ts[0]) == Ok(s1) && LispStep(s1, ts[1]) == Ok(s2)
    ensures LispRun(st, ts) == LispRun(s2, ts[2..])
  {
    RunStep(st, ts, s1);
    RunStep(s1, ts[1..], s2);
    assert ts[1..][1..] == ts[2..];
  }

  /** `a + b` becomes `+ a b`. */
  lemma PairExample(a: real, b: real)
    ensures Lispify([Num(a), Add, Num(b)]) == Ok([Add, Num(a), Num(b)])
  {
    PairRun(a, Add, b);
  }

  /** The same for any one infix operator `t`: it moves in front. */
  lemma InfixPairExample(a: real, t: Token, b: real)
    requires IsInfixOperator(t)
    ensures Lispify([Num(a), t, Num(b)]) == Ok([t, Num(a), Num(b)])
  {
    PairRun(a, t, b);
  }

  /** The loop's state after `a t b`. */
  lemma PairRun(a: real, t: Token, b: real)
    requires IsInfixOperator(t)
    ensures LispRun(Start, [Num(a), t, Num(b)]) == Ok(LispState(true, false, [t, Num(a), Num(b)]))
  {
    var ts := [Num(a), t, Num(b)];
    var s1 := LispState(false, false, [Num(a)]);
    var s2 := LispState(true, false, [t, Num(a)]);
    assert LispStep(Start, Num(a)) == Ok(s1) by {
      assert Start.out + [Num(a)] == [Num(a)];
    }
    assert LispStep(s1, t) == Ok(s2) by {
      assert s1.out[..0] + [t, Num(a)] == [t, Num(a)];
    }
    assert LispStep(s2, Num(b)) == Ok(s2.(out := [t, Num(a), Num(b)])) by {
      assert s2.out + [Num(b)] == [t, Num(a), Num(b)];
    }
    var s3 := s2.(out := [t, Num(a), Num(b)]);
    RunStep(Start, ts, s1);
    RunStep(s1, ts[1..], s2);
    RunStep(s2, ts[2..], s3);
    assert ts[3..] == [];
  }

  /** Every operator after the first at one level is dropped, so the
      chain `a + b + c + d` becomes one four-operand sum `+ a b c d`. */
  lemma ChainExample(a: real, b: real, c: real, d: real)
    ensures Lispify([Num(a), Add, Num(b), Add, Num(c), Add, Num(d)])
         == Ok([Add, Num(a), Num(b), Num(c), Num(d)])
  {
    var s3 := LispState(true, false, [Add, Num(a), Num(b)]);
    var s4 := s3.(out := [Add, Num(a), Num(b), Num(c)]);
    var s5 := s4.(out := [Add, Num(a), Num(b), Num(c), Num(d)]);
    PairRun(a, Add, b);
    DroppedThenOperand(s3, c);
    assert s3.out + [Num(c)] == s4.out;
    DroppedThenOperand(s4, d);
    assert s4.out + [Num(d)] == s5.out;
    RunAppend(Start, [Num(a), Add, Num(b)], [Add, Num(c)], s3);
    RunAppend(Start, [Num(a), Add, Num(b)] + [Add, Num(c)], [Add, Num(d)], s4);
    assert [Num(a), Add, Num(b)] + [Add, Num(c)] + [Add, Num(d)] == [Num(a), Add, Num(b), Add, Num(c), Add, Num(d)];
  }

  /** Once the level has its operator, `+ x` only appends `x`. */
  lemma DroppedThenOperand(st: LispState, x: real)
    requires st.infix
    ensures LispRun(st, [Add, Num(x)]) == Ok(st.(out := st.out + [Num(x)]))
  {
    var ts := [Add, Num(x)];
    RunStep(st, ts, st);
    RunStep(st, ts[1..], st.(out := st.out + [Num(x)]));
    assert ts[1..][1..] == [];
  }

  /** `min(a +`: the first operator inside the call moves before `a`. */
  lemma CallOpen(a: real)
    ensures LispRun(Start, [Min, ParL, Num(a), Add])
         == Ok(LispState(true, true, [Min, ParL, Add, Num(a)]))
  {
    var ts := [Min, ParL, Num(a), Add];
    var s2 := LispState(false, true, [Min, ParL]);
    CallOpenSteps(a);
    RunTwo(Start, ts, LispState(false, false, [Min]), s2);
    assert ts[2..] == [Num(a), Add];
    RunTwo(s2, ts[2..], LispState(false, true, [Min, ParL, Num(a)]), LispState(true, true, [Min, ParL, Add, Num(a)]));
    assert ts[2..][2..] == [];
  }

  lemma CallOpenSteps(a: real)
    ensures LispStep(Start, Min) == Ok(LispState(false, false, [Min]))
    ensures LispStep(LispState(false, false, [Min]), ParL) == Ok(LispState(false, true, [Min, ParL]))
    ensures LispStep(LispState(false, true, [Min, ParL]), Num(a)) == Ok(LispState(false, true, [Min, ParL, Num(a)]))
    ensures LispStep(LispState(false, true, [Min, ParL, Num(a)]), Add) == Ok(LispState(true, true, [Min, ParL, Add, Num(a)]))
  {
    assert Start.out + [Min] == [Min];
    assert [Min] + [ParL] == [Min, ParL];
    assert [Min, ParL] + [Num(a)] == [Min, ParL, Num(a)];
    assert [Min, ParL, Num(a)][..2] + [Add, Num(a)] == [Min, ParL, Add, Num(a)];
  }

  /** `(b + c)`: the group gets its own operator in front, and its `)`
      marks the outer level as having one. */
  lemma CallGroup(a: real, b: real, c: real)
    ensures LispRun(LispState(true, true, [Min, ParL, Add, Num(a)]), [ParL, Num(b), Add, Num(c), ParR])
         == Ok(LispState(true, false, [Min, ParL, Add, Num(a), ParL, Add, Num(b), Num(c), ParR]))
  {
    var ts := [ParL, Num(b), Add, Num(c), ParR];
    var o := [Min, ParL, Add, Num(a)];
    var s6 := LispState(false, true, o + [ParL, Num(b)]);
    var s8 := LispState(true, true, o + [ParL, Add, Num(b), Num(c)]);
    var s9 := LispState(true, false, o + [ParL, Add, Num(b), Num(c), ParR]);
    CallGroupSteps(o, true, b, c);
    RunTwo(LispState(true, true, o), ts, LispState(false, true, o + [ParL]), s6);
    assert ts[2..] == [Add, Num(c), ParR];
    RunTwo(s6, ts[2..], LispState(true, true, o + [ParL, Add, Num(b)]), s8);
    assert ts[2..][2..] == [ParR];
    RunStep(s8, ts[2..][2..], s9);
    assert ts[2..][2..][1..] == [];
    assert o + [ParL, Add, Num(b), Num(c), ParR] == [Min, ParL, Add, Num(a), ParL, Add, Num(b), Num(c), ParR];
  }

  lemma CallGroupSteps(o: seq<Token>, p: bool, b: real, c: real)
    ensures LispStep(LispState(true, p, o), ParL) == Ok(LispState(false, true, o + [ParL]))
    ensures LispStep(LispState(false, true, o + [ParL]), Num(b)) == Ok(LispState(false, true, o + [ParL, Num(b)]))
    ensures LispStep(LispState(false, true, o + [ParL, Num(b)]), Add) == Ok(LispState(true, true, o + [ParL, Add, Num(b)]))
    ensures LispStep(LispState(true, true, o + [ParL, Add, Num(b)]), Num(c)) == Ok(LispState(true, true, o + [ParL, Add, Num(b), Num(c)]))
    ensures LispStep(LispState(true, true, o + [ParL, Add, Num(b), Num(c)]), ParR)
         == Ok(LispState(true, false, o + [ParL, Add, Num(b), Num(c), ParR]))
  {
    assert (o + [ParL]) + [Num(b)] == o + [ParL, Num(b)];
    MoveBefore(o + [ParL], Num(b), Add, true);
    assert (o + [ParL]) + [Add, Num(b)] == o + [ParL, Add, Num(b)];
    assert (o + [ParL, Add, Num(b)]) + [Num(c)] == o + [ParL, Add, Num(b), Num(c)];
    assert (o + [ParL, Add, Num(b), Num(c)]) + [ParR] == o + [ParL, Add, Num(b), Num(c), ParR];
  }

  /** `+ d, e)`: the outer `+` is dropped, the comma starts a new level. */
  lemma CallClose(a: real, b: real, c: real, d: real, e: real)
    ensures LispRun(LispState(true, false, [Min, ParL, Add, Num(a), ParL, Add, Num(b), Num(c), ParR]), [Add, Num(d), Comma, Num(e), ParR])
         == Ok(LispState(false, false, [Min, ParL, Add, Num(a), ParL, Add, Num(b), Num(c), ParR, Num(d), Comma, Num(e), ParR]))
  {
    var ts := [Add, Num(d), Comma, Num(e), ParR];
    var o := [Min, ParL, Add, Num(a), ParL, Add, Num(b), Num(c), ParR];
    var s9 := LispState(true, false, o);
    var s11 := LispState(true, false, o + [Num(d)]);
    var s13 := LispState(false, false, o + [Num(d), Comma, Num(e)]);
    var s14 := LispState(false, false, o + [Num(d), Comma, Num(e), ParR]);
    CallCloseSteps(o, d, e);
    RunTwo(s9, ts, s9, s11);
    assert ts[2..] == [Comma, Num(e), ParR];
    RunTwo(s11, ts[2..], LispState(false, false, o + [Num(d), Comma]), s13);
    assert ts[2..][2..] == [ParR];
    RunStep(s13, ts[2..][2..], s14);
    assert ts[2..][2..][1..] == [];
    assert o + [Num(d), Comma, Num(e), ParR]
        == [Min, ParL, Add, Num(a), ParL, Add, Num(b), Num(c), ParR, Num(d), Comma, Num(e), ParR];
  }

  lemma CallCloseSteps(o: seq<Token>, d: real, e: real)
    ensures LispStep(LispState(true, false, o), Add) == Ok(LispState(true, false, o))
    ensures LispStep(LispState(true, false, o), Num(d)) == Ok(LispState(true, false, o + [Num(d)]))
    ensures LispStep(LispState(true, false, o + [Num(d)]), Comma) == Ok(LispState(false, false, o + [Num(d), Comma]))
    ensures LispStep(LispState(false, false, o + [Num(d), Comma]), Num(e)) == Ok(LispState(false, false, o + [Num(d), Comma, Num(e)]))
    ensures LispStep(LispState(false, false, o + [Num(d), Comma, Num(e)]), ParR)
         == Ok(LispState(false, false, o + [Num(d), Comma, Num(e), ParR]))
  {
    assert (o + [Num(d)]) + [Comma] == o + [Num(d), Comma];
    assert (o + [Num(d), Comma]) + [Num(e)] == o + [Num(d), Comma, Num(e)];
    assert (o + [Num(d), Comma, Num(e)]) + [ParR] == o + [Num(d), Comma, Num(e), ParR];
  }

  /** A function call with a nested group: `min(a + (b + c) + d, e)`
      becomes `min(+ a (+ b c) d, e)`. The `)` that closes the group
      restores `infix` for the outer level, so the second `+` there is
      dropped; the comma opens a fresh level for `e`. */
  lemma CallExample(a: real, b: real, c: real, d: real, e: real)
    ensures Lispify([Min, ParL, Num(a), Add, ParL, Num(b), Add, Num(c), ParR, Add, Num(d), Comma, Num(e), ParR])
         == Ok([Min, ParL, Add, Num(a), ParL, Add, Num(b), Num(c), ParR, Num(d), Comma, Num(e), ParR])
  {
    var p1 := [Min, ParL, Num(a), Add];
    var p2 := [ParL, Num(b), Add, Num(c), ParR];
    var p3 := [Add, Num(d), Comma, Num(e), ParR];
    CallOpen(a);
    CallGroup(a, b, c);
    CallClose(a, b, c, d, e);
    RunAppend(LispState(true, true, [Min, ParL, Add, Num(a)]), p2, p3, LispState(true, false, [Min, ParL, Add, Num(a), ParL, Add, Num(b), Num(c), ParR]));
    RunAppend(Start, p1, p2 + p3, LispState(true, true, [Min, ParL, Add, Num(a)]));
    assert [Min, ParL, Num(a), Add, ParL, Num(b), Add, Num(c), ParR, Add, Num(d), Comma, Num(e), ParR] == p1 + (p2 + p3);
  }

  /** test_lispify_nest (lisp.rs:69-83): a group as the second operand
      gets its own operator in front, so `a + (b + c)` becomes
      `+ a (+ b c)`. */
  lemma NestExample(a: real, b: real, c: real)
    ensures Lispify([Num(a), Add, ParL, Num(b), Add, Num(c), ParR])
         == Ok([Add, Num(a), ParL, Add, Num(b), Num(c), ParR])
  {
    var p1 := [Num(a), Add];
    var p2 := [ParL, Num(b), Add, Num(c), ParR];
    NestOpen(a);
    NestGroup(a, b, c);
    RunAppend(Start, p1, p2, LispState(true, false, [Add, Num(a)]));
    assert [Num(a), Add, ParL, Num(b), Add, Num(c), ParR] == p1 + p2;
  }

  /** test_lispify_nest_continue (lisp.rs:85-100): after the group the
      outer level already has its operator, so `a + (b + c) + d` becomes
      `+ a (+ b c) d`. */
  lemma NestContinueExample(a: real, b: real, c: real, d: real)
    ensures Lispify([Num(a), Add, ParL, Num(b), Add, Num(c), ParR, Add, Num(d)])
         == Ok([Add, Num(a), ParL, Add, Num(b), Num(c), ParR, Num(d)])
  {
    var p1 := [Num(a), Add];
    var p2 := [ParL, Num(b), Add, Num(c), ParR];
    var p3 := [Add, Num(d)];
    var s7 := LispState(true, false, [Add, Num(a), ParL, Add, Num(b), Num(c), ParR]);
    NestOpen(a);
    NestGroup(a, b, c);
    DroppedThenOperand(s7, d);
    assert s7.out + [Num(d)] == [Add, Num(a), ParL, Add, Num(b), Num(c), ParR, Num(d)];
    RunAppend(LispState(true, false, [Add, Num(a)]), p2, p3, s7);
    RunAppend(Start, p1, p2 + p3, LispState(true, false, [Add, Num(a)]));
    assert [Num(a), Add, ParL, Num(b), Add, Num(c), ParR, Add, Num(d)] == p1 + (p2 + p3);
  }

  /** `a +`: the operator moves before `a`. */
  lemma NestOpen(a: real)
    ensures LispRun(Start, [Num(a), Add]) == Ok(LispState(true, false, [Add, Num(a)]))
  {
    var ts := [Num(a), Add];
    assert LispStep(Start, Num(a)) == Ok(LispState(false, false, [Num(a)])) by {
      assert Start.out + [Num(a)] == [Num(a)];
    }
    MoveBefore([], Num(a), Add, false);
    assert [] + [Num(a)] == [Num(a)] && [] + [Add, Num(a)] == [Add, Num(a)];
    RunTwo(Start, ts, LispState(false, false, [Num(a)]), LispState(true, false, [Add, Num(a)]));
    assert ts[2..] == [];
  }

  /** `(b + c)` after `+ a`: the group gets its own operator in front. */
  lemma NestGroup(a: real, b: real, c: real)
    ensures LispRun(LispState(true, false, [Add, Num(a)]), [ParL, Num(b), Add, Num(c), ParR])
         == Ok(LispState(true, false, [Add, Num(a), ParL, Add, Num(b), Num(c), ParR]))
  {
    var ts := [ParL, Num(b), Add, Num(c), ParR];
    var o := [Add, Num(a)];
    var s4 := LispState(false, true, o + [ParL, Num(b)]);
    var s6 := LispState(true, true, o + [ParL, Add, Num(b), Num(c)]);
    var s7 := LispState(true, false, o + [ParL, Add, Num(b), Num(c), ParR]);
    CallGroupSteps(o, false, b, c);
    RunTwo(LispState(true, false, o), ts, LispState(false, true, o + [ParL]), s4);
    assert ts[2..] == [Add, Num(c), ParR];
    RunTwo(s4, ts[2..], LispState(true, true, o + [ParL, Add, Num(b)]), s6);
    assert ts[2..][2..] == [ParR];
    RunStep(s6, ts[2..][2..], s7);
    assert ts[2..][2..][1..] == [];
    assert o + [ParL, Add, Num(b), Num(c), ParR] == [Add, Num(a), ParL, Add, Num(b), Num(c), ParR];
  }

  /** When a level starts with a parenthesised group, the `)` closing it
      sets `infix` although no operator has been placed at the outer
      level yet, so the outer operator is dropped: `(a + b) + c` becomes
      `(+ a b) c`. */
  lemma GroupFirstExample(a: real, b: real, c: real)
    ensures Lispify([ParL, Num(a), Add, Num(b), ParR, Add, Num(c)])
         == Ok([ParL, Add, Num(a), Num(b), ParR, Num(c)])
  {
    var p1 := [ParL, Num(a), Add, Num(b)];
    var p2 := [ParR, Add, Num(c)];
    var mid := LispState(true, true, [ParL, Add, Num(a), Num(b)]);
    GroupOpen(a, b);
    GroupClose(a, b, c);
    RunAppend(Start, p1, p2, mid);
    assert [ParL, Num(a), Add, Num(b), ParR, Add, Num(c)] == p1 + p2;
  }

  /** `(a + b`: the group's operator moves before `a`. */
  lemma GroupOpen(a: real, b: real)
    ensures LispRun(Start, [ParL, Num(a), Add, Num(b)])
         == Ok(LispState(true, true, [ParL, Add, Num(a), Num(b)]))
  {
    var ts := [ParL, Num(a), Add, Num(b)];
    var s2 := LispState(false, true, [ParL, Num(a)]);
    var s4 := LispState(true, true, [ParL, Add, Num(a), Num(b)]);
    GroupOpenSteps(a, b);
    RunTwo(Start, ts, LispState(false, true, [ParL]), s2);
    assert ts[2..] == [Add, Num(b)];
    RunTwo(s2, ts[2..], LispState(true, true, [ParL, Add, Num(a)]), s4);
    assert ts[2..][2..] == [];
  }

  lemma GroupOpenSteps(a: real, b: real)
    ensures LispStep(Start, ParL) == Ok(LispState(false, true, [ParL]))
    ensures LispStep(LispState(false, true, [ParL]), Num(a)) == Ok(LispState(false, true, [ParL, Num(a)]))
    ensures LispStep(LispState(false, true, [ParL, Num(a)]), Add) == Ok(LispState(true, true, [ParL, Add, Num(a)]))
    ensures LispStep(LispState(true, true, [ParL, Add, Num(a)]), Num(b)) == Ok(LispState(true, true, [ParL, Add, Num(a), Num(b)]))
  {
    assert Start.out + [ParL] == [ParL];
    assert [ParL] + [Num(a)] == [ParL, Num(a)];
    assert [ParL, Num(a)][..1] + [Add, Num(a)] == [ParL, Add, Num(a)];
    assert [ParL, Add, Num(a)] + [Num(b)] == [ParL, Add, Num(a), Num(b)];
  }

  /** `) + c`: the `)` sets `infix`, so the outer `+` is dropped. */
  lemma GroupClose(a: real, b: real, c: real)
    ensures LispRun(LispState(true, true, [ParL, Add, Num(a), Num(b)]), [ParR, Add, Num(c)])
         == Ok(LispState(true, false, [ParL, Add, Num(a), Num(b), ParR, Num(c)]))
  {
    var ts := [ParR, Add, Num(c)];
    var s4 := LispState(true, true, [ParL, Add, Num(a), Num(b)]);
    var s5 := LispState(true, false, [ParL, Add, Num(a), Num(b), ParR]);
    var s7 := LispState(true, false, [ParL, Add, Num(a), Num(b), ParR, Num(c)]);
    assert LispStep(s4, ParR) == Ok(s5) by {
      assert s4.out + [ParR] == s5.out;
    }
    RunStep(s4, ts[0..], s5);
    assert LispStep(s5, Add) == Ok(s5);
    RunStep(s5, ts[1..], s5);
    assert LispStep(s5, Num(c)) == Ok(s7) by {
      assert s5.out + [Num(c)] == s7.out;
    }
    RunStep(s5, ts[2..], s7);
    assert ts[3..] == [];
  }

  /** The text `5 + 2` comes out as `+ 5 2`, for any number grammar that
      reads `5` and `2`. */
  lemma LexedSumExample(num: Lexer.NumberParser)
    requires Lexer.ReadsFiveAndTwo(num)
    ensures Lexer.Lex("5 + 2", num).Ok?
    ensures Lispify(Lexer.Lex("5 + 2", num).value) == Ok([Add, Num(5.0), Num(2.0)])
  {
    Lexer.SumExample(num);
    PairExample(5.0, 2.0);
  }
}
