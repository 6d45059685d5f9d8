/** The shunting-yard parser (src/calc/parser/mod.rs:138-268). Four stacks
    are threaded through the token loop: the tokens seen so far (`prev`),
    pending operators (`opr`), finished fragments (`node`) and argument
    counters (`arity`). Every reduction hands a tag and its children to an
    applicator and pushes what it returns.

    Stacks are sequences whose top is the last element. Every `unwrap` on
    an empty stack, and every early `return Err`, is a `ParseError`. */
module Parser {
  import opened Wrappers
  import opened Tokens
  import opened Syntax
  import opened Calc
  import opened Applicators

  datatype ParseError =
    | GotEmpty                  // the `Empty` sentinel token
    | UnaryComparison(t: Token) // a comparison with no value before it
    | NoArityCounter            // `arity.pop()`/`last_mut()` on an empty stack
    | NoFragment                // `node.pop()` on an empty stack
    | TooManyMembers(n: nat)    // more than one fragment left at the end

  datatype State = State(prev: seq<Token>, opr: seq<Token>, node: seq<Ast>, arity: seq<nat>)

  const Initial := State([], [], [], [])

  /** Where an unwinding loop stops: at an opening parenthesis, at an
      opening parenthesis or an additive operator, or never. */
  datatype Stop = AtParL | AtAdditive | Never

  predicate Stops(stop: Stop, t: Token) {
    match stop
    case AtParL => t.ParL?
    case AtAdditive => t.Add? || t.Sub? || t.ParL?
    case Never => false
  }

  /** `arity!`: the child count of a tag, and the arity stack after it has
      been read. Tags without a fixed arity pop the top counter. */
  function TakeArity(f: Fun, arity: seq<nat>): (r: Result<(nat, seq<nat>), ParseError>)
    ensures FixedArity(f).Some? ==> r == Ok((FixedArity(f).value, arity))
    ensures FixedArity(f).None? && |arity| == 0 ==> r.Err?
    ensures FixedArity(f).None? && |arity| > 0 ==>
      r == Ok((arity[|arity| - 1], arity[..|arity| - 1]))
  {
    match FixedArity(f)
    case Some(k) => Ok((k, arity))
    case None =>
      if |arity| == 0 then Err(NoArityCounter)
      else Ok((arity[|arity| - 1], arity[..|arity| - 1]))
  }

  /** One reduction of the popped operator `op`: the top `n` fragments,
      in their original left-to-right order, become the children; the
      applicator is called once on them and its result pushed. */
  function Reduce(st: State, op: Token, app: Applicator, env: Env): (r: Result<State, ParseError>)
    ensures r.Ok? ==> r.value.prev == st.prev && r.value.opr == st.opr
    ensures r.Ok? ==>
      var n := |st.node| + 1 - |r.value.node|;
      && 0 <= n <= |st.node|
      && (FixedArity(FunFrom(op)).Some? ==> n == FixedArity(FunFrom(op)).value && r.value.arity == st.arity)
      && (FixedArity(FunFrom(op)).None? ==>
            |st.arity| > 0 && n == st.arity[|st.arity| - 1] && r.value.arity == st.arity[..|st.arity| - 1])
      && r.value.node == st.node[..|st.node| - n] + [app(st.node[|st.node| - n..], FunFrom(op), env)]
    ensures r.Err? <==>
      (FixedArity(FunFrom(op)).None? && |st.arity| == 0) || |st.node| < TakeArity(FunFrom(op), st.arity).value.0
  {
    var fun := FunFrom(op);
    var (n, arity) :- TakeArity(fun, st.arity);
    if |st.node| < n then Err(NoFragment)
    else
      var children := st.node[|st.node| - n..];
      Ok(st.(node := st.node[..|st.node| - n] + [app(children, fun, env)], arity := arity))
  }

  /** Index of the topmost operator at which `stop` halts, or -1. */
  function LastStop(stop: Stop, opr: seq<Token>): (k: int)
    ensures -1 <= k < |opr|
    ensures k >= 0 ==> Stops(stop, opr[k])
    ensures forall j :: k < j < |opr| ==> !Stops(stop, opr[j])
  {
    if |opr| == 0 then -1
    else if Stops(stop, opr[|opr| - 1]) then |opr| - 1
    else LastStop(stop, opr[..|opr| - 1])
  }

  /** `while let Some(op) = opr.pop()`: reduces operators from the top
      until one at which `stop` halts; that one is pushed back when `keep`
      holds and discarded otherwise. An empty operator stack ends the loop
      too. */
  function Unwind(st: State, stop: Stop, keep: bool, app: Applicator, env: Env): (r: Result<State, ParseError>)
    ensures r.Ok? ==> r.value.prev == st.prev
    ensures r.Ok? ==>
      var k := LastStop(stop, st.opr);
      r.value.opr == st.opr[..if k < 0 then 0 else if keep then k + 1 else k]
    decreases |st.opr|
  {
    if |st.opr| == 0 then Ok(st)
    else
      var op := st.opr[|st.opr| - 1];
      var popped := st.(opr := st.opr[..|st.opr| - 1]);
      if Stops(stop, op) then Ok(if keep then st else popped)
      else
        var next :- Reduce(popped, op, app, env);
        var r := Unwind(next, stop, keep, app, env);
        assert popped.opr == st.opr[..|st.opr| - 1];
        r
  }

  /** Tokens after which `+`, `-` and the comparisons are binary. */
  predicate IsValue(t: Token) {
    t.ParR? || t.Num? || t.Expr?
  }

  /** Whether the token before the current one completed a value. */
  predicate AfterValue(st: State) {
    |st.prev| > 0 && IsValue(st.prev[|st.prev| - 1])
  }

  function Push(opr: seq<Token>, t: Token): seq<Token> {
    opr + [t]
  }

  /** A comma: one more argument for the innermost call, then reduce the
      finished argument down to the nearest opening parenthesis. */
  function HandleComma(st: State, app: Applicator, env: Env): Result<State, ParseError> {
    if |st.arity| == 0 then Err(NoArityCounter)
    else Unwind(st.(arity := Bump(st.arity)), AtParL, true, app, env)
  }

  /** `*arity.last_mut().unwrap() += 1`. */
  function Bump(arity: seq<nat>): (r: seq<nat>)
    requires |arity| > 0
    ensures |r| == |arity| && r[..|r| - 1] == arity[..|arity| - 1]
    ensures r[|r| - 1] == arity[|arity| - 1] + 1
  {
    arity[..|arity| - 1] + [arity[|arity| - 1] + 1]
  }

  /** `+`, `-` and the comparisons: binary right after a value, else
      unary signs (or an error for a comparison). */
  function HandleAdditive(st: State, t: Token, app: Applicator, env: Env): Result<State, ParseError> {
    if AfterValue(st) then
      var s :- Unwind(st, AtParL, true, app, env);
      Ok(s.(opr := Push(s.opr, t)))
    else if t.Add? then Ok(st.(opr := Push(st.opr, Token.Plus)))
    else if t.Sub? then Ok(st.(opr := Push(st.opr, Token.Minus)))
    else Err(UnaryComparison(t))
  }

  /** `*`, `/` and the infix modulo: reduce down to the nearest additive
      operator or opening parenthesis, then push. */
  function HandleMultiplicative(st: State, t: Token, app: Applicator, env: Env): Result<State, ParseError> {
    var s :- Unwind(st, AtAdditive, true, app, env);
    Ok(s.(opr := Push(s.opr, t)))
  }

  /** The body of the token loop for one token, before `prev` is updated. */
  function Handle(st: State, t: Token, app: Applicator, env: Env): Result<State, ParseError> {
    if t.Num? then Ok(st.(node := st.node + [Leaf(t.n)]))
    else if t.Expr? then Ok(st.(node := st.node + [Get(t.path)]))
    else if t.Empty? then Err(GotEmpty)
    else if t.Comma? then HandleComma(st, app, env)
    else if t.ParL? then Ok(st.(opr := Push(st.opr, ParL)))
    else if t.ParR? then Unwind(st, AtParL, false, app, env)
    else if IsAdditive(t) then HandleAdditive(st, t, app, env)
    else if IsMultiplicative(t) then HandleMultiplicative(st, t, app, env)
    else if t.Ipow? then Ok(st.(opr := Push(st.opr, Ipow)))
    else Ok(st.(opr := Push(st.opr, t), arity := st.arity + [1]))
  }

  /** The tokens that reduce down to the nearest `(`: the comparisons and
      the additive operators. */
  predicate IsAdditive(t: Token) {
    t.Eq? || t.Neq? || t.Gt? || t.Ge? || t.Lt? || t.Le? || t.Add? || t.Sub?
  }

  /** The tokens that reduce down to the nearest additive operator. */
  predicate IsMultiplicative(t: Token) {
    t.Mul? || t.Div? || t.Imod?
  }

  /** One iteration of the token loop: handle `t`, then record it. */
  function Step(st: State, t: Token, app: Applicator, env: Env): (r: Result<State, ParseError>)
    ensures r.Ok? ==> r.value.prev == st.prev + [t]
    ensures t.Empty? ==> r.Err?
  {
    var s :- Handle(st, t, app, env);
    Ok(s.(prev := st.prev + [t]))
  }

  /** The token loop over the remaining input. */
  function Run(st: State, ts: seq<Token>, app: Applicator, env: Env): (r: Result<State, ParseError>)
    ensures r.Ok? ==> r.value.prev == st.prev + ts
    decreases |ts|
  {
    if |ts| == 0 then Ok(st)
    else
      var next :- Step(st, ts[0], app, env);
      var r := Run(next, ts[1..], app, env);
      assert r.Ok? ==> r.value.prev == st.prev + [ts[0]] + ts[1..] == st.prev + ts;
      r
  }

  /** After the loop: drain every operator, then exactly one fragment must
      remain. */
  function Finish(st: State, app: Applicator, env: Env): (r: Result<Ast, ParseError>)
  {
    var s :- Unwind(st, Never, true, app, env);
    if |s.node| > 1 then Err(TooManyMembers(|s.node|))
    else if |s.node| == 0 then Err(NoFragment)
    else Ok(s.node[0])
  }

  /** `parse_fn`. */
  function ParseFn(ts: seq<Token>, app: Applicator, env: Env): Result<Ast, ParseError> {
    var st :- Run(Initial, ts, app, env);
    Finish(st, app, env)
  }

  /** `parse`: `parse_fn` with the default applicator. */
  function Parse(ts: seq<Token>, env: Env): Result<Ast, ParseError> {
    ParseFn(ts, Basic, env)
  }

  // ---- folding does not change what a parse evaluates to ----

  predicate NoGetters(ns: seq<Ast>) {
    forall i :: 0 <= i < |ns| ==> !ns[i].Get?
  }

  /** Two parser states that differ only in fragments that evaluate alike. */
  ghost predicate Similar(s1: State, s2: State, m: Math) {
    && s1.prev == s2.prev && s1.opr == s2.opr && s1.arity == s2.arity
    && |s1.node| == |s2.node|
    && (forall i :: 0 <= i < |s1.node| ==> Eval(s1.node[i], m) == Eval(s2.node[i], m))
    && NoGetters(s1.node) && NoGetters(s2.node)
  }

  /** What a sound applicator promises, for one call. */
  lemma SoundCall(app: Applicator, env: Env, ns: seq<Ast>, f: Fun)
    requires Sound(app, env) && NoGetters(ns)
    ensures !app(ns, f, env).Get?
    ensures Eval(app(ns, f, env), env.math) == Eval(Node(ns, f), env.math)
  {
    assert !HasGet(ns);
  }

  lemma ReduceSimilar(s1: State, s2: State, op: Token, a1: Applicator, a2: Applicator, env: Env)
    requires Similar(s1, s2, env.math) && Sound(a1, env) && Sound(a2, env)
    ensures Reduce(s1, op, a1, env).Ok? <==> Reduce(s2, op, a2, env).Ok?
    ensures Reduce(s1, op, a1, env).Ok? ==>
      Similar(Reduce(s1, op, a1, env).value, Reduce(s2, op, a2, env).value, env.math)
  {
    var r1, r2 := Reduce(s1, op, a1, env), Reduce(s2, op, a2, env);
    if r1.Ok? {
      var f := FunFrom(op);
      var n := TakeArity(f, s1.arity).value.0;
      var k := |s1.node| - n;
      var c1, c2 := s1.node[k..], s2.node[k..];
      SimilarTops(s1.node, s2.node, k, env.math);
      EvalCongruent(c1, c2, f, env.math);
      SoundCall(a1, env, c1, f);
      SoundCall(a2, env, c2, f);
      ReduceAlike(s1, s2, op, a1, a2, env, n);
    }
  }

  /** `ReduceSimilar` once the two applicator calls are known to agree. */
  lemma ReduceAlike(s1: State, s2: State, op: Token, a1: Applicator, a2: Applicator, env: Env, n: nat)
    requires Similar(s1, s2, env.math) && Reduce(s1, op, a1, env).Ok?
    requires TakeArity(FunFrom(op), s1.arity).Ok? && n == TakeArity(FunFrom(op), s1.arity).value.0
    requires n <= |s1.node|
    requires var x1, x2 := a1(s1.node[|s1.node| - n..], FunFrom(op), env), a2(s2.node[|s1.node| - n..], FunFrom(op), env);
      !x1.Get? && !x2.Get? && Eval(x1, env.math) == Eval(x2, env.math)
    ensures Reduce(s2, op, a2, env).Ok?
    ensures Similar(Reduce(s1, op, a1, env).value, Reduce(s2, op, a2, env).value, env.math)
  {
    var k, f := |s1.node| - n, FunFrom(op);
    var x1, x2 := a1(s1.node[k..], f, env), a2(s2.node[k..], f, env);
    var arity := TakeArity(f, s1.arity).value.1;
    ReduceTakes(s1, op, a1, env, n);
    ReduceTakes(s2, op, a2, env, n);
    SimilarReplaceTop(s1, s2, k, x1, x2, arity, env.math);
  }

  /** Replacing the top fragments of two similar states by two alike
      fragments, and their arity stacks by the same one, keeps them similar. */
  lemma SimilarReplaceTop(s1: State, s2: State, k: nat, x1: Ast, x2: Ast, arity: seq<nat>, m: Math)
    requires Similar(s1, s2, m) && k <= |s1.node|
    requires !x1.Get? && !x2.Get? && Eval(x1, m) == Eval(x2, m)
    ensures Similar(s1.(node := s1.node[..k] + [x1], arity := arity), s2.(node := s2.node[..k] + [x2], arity := arity), m)
  {
    SimilarPrefixPush(s1.node, s2.node, k, x1, x2, m);
  }

  /** A reduction whose arity is known and whose fragments are present. */
  lemma ReduceTakes(st: State, op: Token, app: Applicator, env: Env, n: nat)
    requires TakeArity(FunFrom(op), st.arity).Ok? && n == TakeArity(FunFrom(op), st.arity).value.0
    requires n <= |st.node|
    ensures var k := |st.node| - n;
      Reduce(st, op, app, env)
        == Ok(st.(node := st.node[..k] + [app(st.node[k..], FunFrom(op), env)], arity := TakeArity(FunFrom(op), st.arity).value.1))
  {
  }

  /** The tops of two pointwise-alike stacks are pointwise alike. */
  lemma SimilarTops(n1: seq<Ast>, n2: seq<Ast>, k: nat, m: Math)
    requires |n1| == |n2| && k <= |n1|
    requires forall i :: 0 <= i < |n1| ==> Eval(n1[i], m) == Eval(n2[i], m)
    requires NoGetters(n1) && NoGetters(n2)
    ensures |n1[k..]| == |n2[k..]| && NoGetters(n1[k..]) && NoGetters(n2[k..])
    ensures forall i :: 0 <= i < |n1[k..]| ==> Eval(n1[k..][i], m) == Eval(n2[k..][i], m)
  {
    assert forall i :: 0 <= i < |n1| - k ==> n1[k..][i] == n1[k + i] && n2[k..][i] == n2[k + i];
  }

  /** Replacing the tops of two pointwise-alike stacks by two alike
      fragments keeps them pointwise alike. */
  lemma SimilarPrefixPush(n1: seq<Ast>, n2: seq<Ast>, k: nat, x1: Ast, x2: Ast, m: Math)
    requires |n1| == |n2| && k <= |n1|
    requires forall i :: 0 <= i < |n1| ==> Eval(n1[i], m) == Eval(n2[i], m)
    requires NoGetters(n1) && NoGetters(n2) && !x1.Get? && !x2.Get?
    requires Eval(x1, m) == Eval(x2, m)
    ensures forall i :: 0 <= i <= k ==> Eval((n1[..k] + [x1])[i], m) == Eval((n2[..k] + [x2])[i], m)
    ensures NoGetters(n1[..k] + [x1]) && NoGetters(n2[..k] + [x2])
  {
    var p1, p2 := n1[..k] + [x1], n2[..k] + [x2];
    forall i | 0 <= i <= k
      ensures Eval(p1[i], m) == Eval(p2[i], m) && !p1[i].Get? && !p2[i].Get?
    {
      if i < k {
        assert p1[i] == n1[i] && p2[i] == n2[i];
      } else {
        assert p1[i] == x1 && p2[i] == x2;
      }
    }
  }

  lemma UnwindSimilar(s1: State, s2: State, stop: Stop, keep: bool, a1: Applicator, a2: Applicator, env: Env)
    requires Similar(s1, s2, env.math) && Sound(a1, env) && Sound(a2, env)
    ensures Unwind(s1, stop, keep, a1, env).Ok? <==> Unwind(s2, stop, keep, a2, env).Ok?
    ensures Unwind(s1, stop, keep, a1, env).Ok? ==>
      Similar(Unwind(s1, stop, keep, a1, env).value, Unwind(s2, stop, keep, a2, env).value, env.math)
    decreases |s1.opr|
  {
    if |s1.opr| > 0 {
      var op := s1.opr[|s1.opr| - 1];
      var p1 := s1.(opr := s1.opr[..|s1.opr| - 1]);
      var p2 := s2.(opr := s2.opr[..|s2.opr| - 1]);
      if !Stops(stop, op) {
        ReduceSimilar(p1, p2, op, a1, a2, env);
        if Reduce(p1, op, a1, env).Ok? {
          UnwindSimilar(Reduce(p1, op, a1, env).value, Reduce(p2, op, a2, env).value, stop, keep, a1, a2, env);
        }
      }
    }
  }

  /** Pushing one fragment on each side keeps two states similar. */
  lemma PushSimilar(s1: State, s2: State, x: Ast, m: Math)
    requires Similar(s1, s2, m) && !x.Get?
    ensures Similar(s1.(node := s1.node + [x]), s2.(node := s2.node + [x]), m)
  {
  }

  /** Replacing the counters on both sides alike keeps two states similar. */
  lemma SimilarArity(s1: State, s2: State, arity: seq<nat>, m: Math)
    requires Similar(s1, s2, m)
    ensures Similar(s1.(arity := arity), s2.(arity := arity), m)
  {
  }

  lemma HandleCommaSimilar(s1: State, s2: State, a1: Applicator, a2: Applicator, env: Env)
    requires Similar(s1, s2, env.math) && Sound(a1, env) && Sound(a2, env)
    ensures HandleComma(s1, a1, env).Ok? <==> HandleComma(s2, a2, env).Ok?
    ensures HandleComma(s1, a1, env).Ok? ==>
      Similar(HandleComma(s1, a1, env).value, HandleComma(s2, a2, env).value, env.math)
  {
    if |s1.arity| > 0 {
      var b1, b2 := s1.(arity := Bump(s1.arity)), s2.(arity := Bump(s2.arity));
      SimilarArity(s1, s2, Bump(s1.arity), env.math);
      UnwindSimilar(b1, b2, AtParL, true, a1, a2, env);
    }
  }

  lemma HandleAdditiveSimilar(s1: State, s2: State, t: Token, a1: Applicator, a2: Applicator, env: Env)
    requires Similar(s1, s2, env.math) && Sound(a1, env) && Sound(a2, env)
    ensures HandleAdditive(s1, t, a1, env).Ok? <==> HandleAdditive(s2, t, a2, env).Ok?
    ensures HandleAdditive(s1, t, a1, env).Ok? ==>
      Similar(HandleAdditive(s1, t, a1, env).value, HandleAdditive(s2, t, a2, env).value, env.math)
  {
    UnwindSimilar(s1, s2, AtParL, true, a1, a2, env);
    AdditiveAfterUnwind(s1, s2, t, a1, a2, env);
  }

  /** Unwinds that keep two states similar stay similar once an operator
      is pushed onto both. */
  ghost predicate UnwindsAlike(s1: State, s2: State, stop: Stop, a1: Applicator, a2: Applicator, env: Env) {
    var u1, u2 := Unwind(s1, stop, true, a1, env), Unwind(s2, stop, true, a2, env);
    && (u1.Ok? <==> u2.Ok?)
    && (u1.Ok? ==> Similar(u1.value, u2.value, env.math))
  }

  lemma AdditiveAfterUnwind(s1: State, s2: State, t: Token, a1: Applicator, a2: Applicator, env: Env)
    requires Similar(s1, s2, env.math) && UnwindsAlike(s1, s2, AtParL, a1, a2, env)
    ensures HandleAdditive(s1, t, a1, env).Ok? <==> HandleAdditive(s2, t, a2, env).Ok?
    ensures HandleAdditive(s1, t, a1, env).Ok? ==>
      Similar(HandleAdditive(s1, t, a1, env).value, HandleAdditive(s2, t, a2, env).value, env.math)
  {
    if AfterValue(s1) {
      var u1, u2 := Unwind(s1, AtParL, true, a1, env), Unwind(s2, AtParL, true, a2, env);
      if u1.Ok? {
        SimilarPushOp(u1.value, u2.value, t, u1.value.arity, env.math);
      }
    }
  }

  lemma MultiplicativeAfterUnwind(s1: State, s2: State, t: Token, a1: Applicator, a2: Applicator, env: Env)
    requires UnwindsAlike(s1, s2, AtAdditive, a1, a2, env)
    ensures HandleMultiplicative(s1, t, a1, env).Ok? <==> HandleMultiplicative(s2, t, a2, env).Ok?
    ensures HandleMultiplicative(s1, t, a1, env).Ok? ==>
      Similar(HandleMultiplicative(s1, t, a1, env).value, HandleMultiplicative(s2, t, a2, env).value, env.math)
  {
    var u1, u2 := Unwind(s1, AtAdditive, true, a1, env), Unwind(s2, AtAdditive, true, a2, env);
    if u1.Ok? {
      SimilarPushOp(u1.value, u2.value, t, u1.value.arity, env.math);
    }
  }

  lemma HandleMultiplicativeSimilar(s1: State, s2: State, t: Token, a1: Applicator, a2: Applicator, env: Env)
    requires Similar(s1, s2, env.math) && Sound(a1, env) && Sound(a2, env)
    ensures HandleMultiplicative(s1, t, a1, env).Ok? <==> HandleMultiplicative(s2, t, a2, env).Ok?
    ensures HandleMultiplicative(s1, t, a1, env).Ok? ==>
      Similar(HandleMultiplicative(s1, t, a1, env).value, HandleMultiplicative(s2, t, a2, env).value, env.math)
  {
    UnwindSimilar(s1, s2, AtAdditive, true, a1, a2, env);
    MultiplicativeAfterUnwind(s1, s2, t, a1, a2, env);
  }

  /** One token moves two similar states to two similar states (a getter
      token aside, which a resolver could fold into anything). */
  lemma HandleSimilar(s1: State, s2: State, t: Token, a1: Applicator, a2: Applicator, env: Env)
    requires Similar(s1, s2, env.math) && Sound(a1, env) && Sound(a2, env) && !t.Expr?
    ensures Handle(s1, t, a1, env).Ok? <==> Handle(s2, t, a2, env).Ok?
    ensures Handle(s1, t, a1, env).Ok? ==>
      Similar(Handle(s1, t, a1, env).value, Handle(s2, t, a2, env).value, env.math)
  {
    if t.Num? || t.Empty? || t.Comma? || t.ParR? {
      HandleSimilarOperand(s1, s2, t, a1, a2, env);
    } else if IsAdditive(t) {
      HandleSimilarAdditive(s1, s2, t, a1, a2, env);
    } else if IsMultiplicative(t) {
      HandleSimilarMultiplicative(s1, s2, t, a1, a2, env);
    } else {
      HandleSimilarOpens(s1, s2, t, a1, a2, env);
    }
  }

  /** `HandleSimilar` for numbers, the empty token, commas and `)`. */
  lemma HandleSimilarOperand(s1: State, s2: State, t: Token, a1: Applicator, a2: Applicator, env: Env)
    requires Similar(s1, s2, env.math) && Sound(a1, env) && Sound(a2, env) && (t.Num? || t.Empty? || t.Comma? || t.ParR?)
    ensures Handle(s1, t, a1, env).Ok? <==> Handle(s2, t, a2, env).Ok?
    ensures Handle(s1, t, a1, env).Ok? ==>
      Similar(Handle(s1, t, a1, env).value, Handle(s2, t, a2, env).value, env.math)
  {
    if t.Num? {
      assert Handle(s1, t, a1, env) == Ok(s1.(node := s1.node + [Leaf(t.n)]));
      assert Handle(s2, t, a2, env) == Ok(s2.(node := s2.node + [Leaf(t.n)]));
      PushSimilar(s1, s2, Leaf(t.n), env.math);
    } else if t.Empty? {
      assert Handle(s1, t, a1, env).Err? && Handle(s2, t, a2, env).Err?;
    } else if t.Comma? {
      assert Handle(s1, t, a1, env) == HandleComma(s1, a1, env);
      assert Handle(s2, t, a2, env) == HandleComma(s2, a2, env);
      HandleCommaSimilar(s1, s2, a1, a2, env);
    } else {
      assert Handle(s1, t, a1, env) == Unwind(s1, AtParL, false, a1, env);
      assert Handle(s2, t, a2, env) == Unwind(s2, AtParL, false, a2, env);
      UnwindSimilar(s1, s2, AtParL, false, a1, a2, env);
    }
  }

  /** `HandleSimilar` for `+`, `-` and the comparisons. */
  lemma HandleSimilarAdditive(s1: State, s2: State, t: Token, a1: Applicator, a2: Applicator, env: Env)
    requires Similar(s1, s2, env.math) && Sound(a1, env) && Sound(a2, env) && IsAdditive(t)
    ensures Handle(s1, t, a1, env).Ok? <==> Handle(s2, t, a2, env).Ok?
    ensures Handle(s1, t, a1, env).Ok? ==>
      Similar(Handle(s1, t, a1, env).value, Handle(s2, t, a2, env).value, env.math)
  {
    HandleAdditiveSimilar(s1, s2, t, a1, a2, env);
    HandleIsAdditive(s1, t, a1, env);
    HandleIsAdditive(s2, t, a2, env);
    SimilarTransport(Handle(s1, t, a1, env), Handle(s2, t, a2, env),
      HandleAdditive(s1, t, a1, env), HandleAdditive(s2, t, a2, env), env.math);
  }

  lemma HandleIsAdditive(st: State, t: Token, app: Applicator, env: Env)
    requires IsAdditive(t)
    ensures Handle(st, t, app, env) == HandleAdditive(st, t, app, env)
  {
  }

  lemma HandleIsClose(st: State, t: Token, app: Applicator, env: Env)
    requires t.ParR?
    ensures Handle(st, t, app, env) == Unwind(st, AtParL, false, app, env)
  {
  }

  lemma HandleIsMultiplicative(st: State, t: Token, app: Applicator, env: Env)
    requires IsMultiplicative(t)
    ensures Handle(st, t, app, env) == HandleMultiplicative(st, t, app, env)
  {
  }

  /** Similar outcomes carry over to equal outcomes. */
  lemma SimilarTransport(r1: Result<State, ParseError>, r2: Result<State, ParseError>,
                         q1: Result<State, ParseError>, q2: Result<State, ParseError>, m: Math)
    requires r1 == q1 && r2 == q2
    requires q1.Ok? <==> q2.Ok?
    requires q1.Ok? ==> Similar(q1.value, q2.value, m)
    ensures r1.Ok? <==> r2.Ok?
    ensures r1.Ok? ==> Similar(r1.value, r2.value, m)
  {
  }

  /** `HandleSimilar` for `*`, `/` and the infix modulo. */
  lemma HandleSimilarMultiplicative(s1: State, s2: State, t: Token, a1: Applicator, a2: Applicator, env: Env)
    requires Similar(s1, s2, env.math) && Sound(a1, env) && Sound(a2, env) && IsMultiplicative(t)
    ensures Handle(s1, t, a1, env).Ok? <==> Handle(s2, t, a2, env).Ok?
    ensures Handle(s1, t, a1, env).Ok? ==>
      Similar(Handle(s1, t, a1, env).value, Handle(s2, t, a2, env).value, env.math)
  {
    HandleMultiplicativeSimilar(s1, s2, t, a1, a2, env);
    HandleIsMultiplicative(s1, t, a1, env);
    HandleIsMultiplicative(s2, t, a2, env);
    SimilarTransport(Handle(s1, t, a1, env), Handle(s2, t, a2, env),
      HandleMultiplicative(s1, t, a1, env), HandleMultiplicative(s2, t, a2, env), env.math);
  }

  /** `HandleSimilar` for `(`, infix `Ipow` and the function names. */
  lemma HandleSimilarOpens(s1: State, s2: State, t: Token, a1: Applicator, a2: Applicator, env: Env)
    requires Similar(s1, s2, env.math) && Sound(a1, env) && Sound(a2, env) && Opens(t)
    ensures Handle(s1, t, a1, env).Ok? <==> Handle(s2, t, a2, env).Ok?
    ensures Handle(s1, t, a1, env).Ok? ==>
      Similar(Handle(s1, t, a1, env).value, Handle(s2, t, a2, env).value, env.math)
  {
    var arity := if t.ParL? || t.Ipow? then s1.arity else s1.arity + [1];
    HandleOpens(s1, t, a1, env);
    HandleOpens(s2, t, a2, env);
    SimilarPushOp(s1, s2, t, arity, env.math);
  }

  /** The tokens that only push themselves: `(`, infix `Ipow` and the named
      functions. */
  predicate Opens(t: Token) {
    !(t.Num? || t.Expr? || t.Empty? || t.Comma? || t.ParR? || IsAdditive(t) || IsMultiplicative(t))
  }

  /** `(` and infix `Ipow` are pushed as they are; a function name is pushed with a
      fresh argument counter of one. */
  lemma HandleOpens(st: State, t: Token, app: Applicator, env: Env)
    requires Opens(t)
    ensures Handle(st, t, app, env)
      == Ok(st.(opr := st.opr + [t], arity := if t.ParL? || t.Ipow? then st.arity else st.arity + [1]))
  {
  }

  /** Pushing the same operator and setting the same counters keeps two
      states similar. */
  lemma SimilarPushOp(s1: State, s2: State, t: Token, arity: seq<nat>, m: Math)
    requires Similar(s1, s2, m)
    ensures Similar(s1.(opr := s1.opr + [t], arity := arity), s2.(opr := s2.opr + [t], arity := arity), m)
  {
  }

  lemma {:induction false} RunSimilar(s1: State, s2: State, ts: seq<Token>, a1: Applicator, a2: Applicator, env: Env)
    requires Similar(s1, s2, env.math) && Sound(a1, env) && Sound(a2, env)
    requires forall i :: 0 <= i < |ts| ==> !ts[i].Expr?
    ensures Run(s1, ts, a1, env).Ok? <==> Run(s2, ts, a2, env).Ok?
    ensures Run(s1, ts, a1, env).Ok? ==>
      Similar(Run(s1, ts, a1, env).value, Run(s2, ts, a2, env).value, env.math)
    decreases |ts|
  {
    if |ts| > 0 {
      HandleSimilar(s1, s2, ts[0], a1, a2, env);
      if Handle(s1, ts[0], a1, env).Ok? {
        var n1, n2 := Step(s1, ts[0], a1, env).value, Step(s2, ts[0], a2, env).value;
        assert Similar(n1, n2, env.math);
        RunSimilar(n1, n2, ts[1..], a1, a2, env);
      }
    }
  }

  /** Folding is only an optimisation: on input without getters, any two
      sound applicators (`Identity`, `Optimize`, `Basic`) either both fail
      to parse, or give trees that evaluate to the same result. */
  lemma ApplicatorsAgree(ts: seq<Token>, a1: Applicator, a2: Applicator, env: Env)
    requires Sound(a1, env) && Sound(a2, env)
    requires forall i :: 0 <= i < |ts| ==> !ts[i].Expr?
    ensures ParseFn(ts, a1, env).Ok? <==> ParseFn(ts, a2, env).Ok?
    ensures ParseFn(ts, a1, env).Ok? ==>
      Eval(ParseFn(ts, a1, env).value, env.math) == Eval(ParseFn(ts, a2, env).value, env.math)
  {
    RunSimilar(Initial, Initial, ts, a1, a2, env);
    var r1, r2 := Run(Initial, ts, a1, env), Run(Initial, ts, a2, env);
    if r1.Ok? {
      UnwindSimilar(r1.value, r2.value, Never, true, a1, a2, env);
    }
  }

  /** In particular the default parser and the verbatim one agree. */
  lemma FoldingPreservesMeaning(ts: seq<Token>, env: Env)
    requires forall i :: 0 <= i < |ts| ==> !ts[i].Expr?
    ensures Parse(ts, env).Ok? <==> ParseFn(ts, Identity, env).Ok?
    ensures Parse(ts, env).Ok? ==>
      Eval(Parse(ts, env).value, env.math) == Eval(ParseFn(ts, Identity, env).value, env.math)
  {
    ApplicatorsSound(env);
    ApplicatorsAgree(ts, Basic, Identity, env);
  }

  // ---- what each kind of token does ----

  /** An operand adds exactly one fragment and touches no other stack. */
  lemma OperandStep(st: State, t: Token, app: Applicator, env: Env)
    requires t.Num? || t.Expr?
    ensures Handle(st, t, app, env).Ok?
    ensures var s := Handle(st, t, app, env).value;
      && s.opr == st.opr && s.arity == st.arity && s.node[..|st.node|] == st.node
      && |s.node| == |st.node| + 1
      && s.node[|st.node|] == (if t.Num? then Leaf(t.n) else Get(t.path))
  {
  }

  /** `+`, `-` and the comparisons are binary exactly after a number, a
      getter or a closing parenthesis: then every pending operator above
      the innermost open parenthesis is reduced and the token waits on top.
      Elsewhere `+` and `-` become signs, no fragment changes, and a
      comparison is an error. */
  lemma AdditiveStep(st: State, t: Token, app: Applicator, env: Env)
    requires t.Add? || t.Sub? || t.Eq? || t.Neq? || t.Gt? || t.Ge? || t.Lt? || t.Le?
    ensures var r := Handle(st, t, app, env);
      && (AfterValue(st) && r.Ok? ==>
            var k := LastStop(AtParL, st.opr);
            r.value.opr == st.opr[..k + 1] + [t] && (k >= 0 ==> r.value.opr[k].ParL?))
      && (!AfterValue(st) && (t.Add? || t.Sub?) ==>
            r.Ok? && r.value.node == st.node && r.value.arity == st.arity
            && r.value.opr == st.opr + [if t.Add? then Token.Plus else Token.Minus])
      && (!AfterValue(st) && !t.Add? && !t.Sub? ==> r == Err(UnaryComparison(t)))
  {
    assert Handle(st, t, app, env) == HandleAdditive(st, t, app, env);
  }

  /** `*`, `/` and infix modulo reduce pending operators of equal or
      higher precedence, stopping below the innermost `+`, `-` or open
      parenthesis, and then wait on top: they are left associative and
      bind tighter than `+` and `-`. */
  lemma MultiplicativeStep(st: State, t: Token, app: Applicator, env: Env)
    requires t.Mul? || t.Div? || t.Imod?
    ensures var r := Handle(st, t, app, env);
      r.Ok? ==>
        var k := LastStop(AtAdditive, st.opr);
        && r.value.opr == st.opr[..k + 1] + [t]
        && (forall j :: k < j < |st.opr| ==> !st.opr[j].Add? && !st.opr[j].Sub? && !st.opr[j].ParL?)
  {
    assert Handle(st, t, app, env) == HandleMultiplicative(st, t, app, env);
  }

  /** Infix power reduces nothing, so `a ^ b ^ c` groups to the right;
      parentheses and function names are pushed as they are, and a
      function name opens an argument counter at one. */
  lemma PushingSteps(st: State, t: Token, app: Applicator, env: Env)
    requires !t.Num? && !t.Expr? && !t.Empty? && !t.Comma? && !t.ParR?
    requires !(t.Add? || t.Sub? || t.Eq? || t.Neq? || t.Gt? || t.Ge? || t.Lt? || t.Le?)
    requires !(t.Mul? || t.Div? || t.Imod?)
    ensures Handle(st, t, app, env).Ok?
    ensures var s := Handle(st, t, app, env).value;
      && s.node == st.node && s.opr == st.opr + [t]
      && s.arity == (if t.Ipow? || t.ParL? then st.arity else st.arity + [1])
  {
  }

  /** A comma adds one to the innermost argument counter (an error when
      there is none) and reduces the finished argument down to, but not
      past, the innermost open parenthesis. */
  lemma CommaStep(st: State, app: Applicator, env: Env)
    ensures |st.arity| == 0 ==> Handle(st, Comma, app, env) == Err(NoArityCounter)
    ensures var r := Handle(st, Comma, app, env);
      r.Ok? ==>
        var k := LastStop(AtParL, st.opr);
        && r.value.opr == st.opr[..k + 1]
        && (k >= 0 ==> r.value.opr[k].ParL?)
        && (FixedArityAbove(st.opr, k) ==> r.value.arity == Bump(st.arity))
  {
    CommaBumps(st, app, env);
  }

  lemma CommaBumps(st: State, app: Applicator, env: Env)
    ensures |st.arity| == 0 ==> HandleComma(st, app, env) == Err(NoArityCounter)
    ensures var r := HandleComma(st, app, env);
      r.Ok? ==>
        var k := LastStop(AtParL, st.opr);
        && r.value.opr == st.opr[..k + 1]
        && (FixedArityAbove(st.opr, k) ==> r.value.arity == Bump(st.arity))
  {
    if |st.arity| > 0 && FixedArityAbove(st.opr, LastStop(AtParL, st.opr)) {
      UnwindFixedArity(st.(arity := Bump(st.arity)), AtParL, true, app, env);
    }
  }

  /** A closing parenthesis reduces the operators above the innermost
      open parenthesis and then drops that parenthesis. */
  lemma CloseStep(st: State, app: Applicator, env: Env)
    ensures var r := Handle(st, ParR, app, env);
      r.Ok? ==>
        var k := LastStop(AtParL, st.opr);
        r.value.opr == st.opr[..if k < 0 then 0 else k]
  {
    var r := Unwind(st, AtParL, false, app, env);
  }

  /** The operators above index `k` never read the arity stack when
      reduced. */
  predicate FixedArityAbove(ops: seq<Token>, k: int) {
    forall j :: 0 <= j < |ops| && k < j ==> FixedArity(FunFrom(ops[j])).Some?
  }

  /** Reducing only fixed-arity operators leaves the counters alone. */
  lemma {:induction false} UnwindFixedArity(st: State, stop: Stop, keep: bool, app: Applicator, env: Env)
    requires FixedArityAbove(st.opr, LastStop(stop, st.opr))
    ensures var r := Unwind(st, stop, keep, app, env); r.Ok? ==> r.value.arity == st.arity
    decreases |st.opr|
  {
    if |st.opr| > 0 && !Stops(stop, st.opr[|st.opr| - 1]) {
      var r := Reduce(st.(opr := st.opr[..|st.opr| - 1]), st.opr[|st.opr| - 1], app, env);
      FixedArityReduce(st, stop, keep, app, env);
      if r.Ok? {
        UnwindFixedArity(r.value, stop, keep, app, env);
      }
    }
  }

  /** One reduction of `UnwindFixedArity`: the counters survive it, and
      the operators left above the stop still have fixed arities. */
  lemma FixedArityReduce(st: State, stop: Stop, keep: bool, app: Applicator, env: Env)
    requires |st.opr| > 0 && !Stops(stop, st.opr[|st.opr| - 1])
    requires FixedArityAbove(st.opr, LastStop(stop, st.opr))
    ensures var r := Reduce(st.(opr := st.opr[..|st.opr| - 1]), st.opr[|st.opr| - 1], app, env);
      && (r.Err? ==> Unwind(st, stop, keep, app, env).Err?)
      && (r.Ok? ==>
            && r.value.arity == st.arity && |r.value.opr| < |st.opr|
            && FixedArityAbove(r.value.opr, LastStop(stop, r.value.opr))
            && Unwind(st, stop, keep, app, env) == Unwind(r.value, stop, keep, app, env))
  {
    var popped := st.(opr := st.opr[..|st.opr| - 1]);
    FixedArityBelowTop(st.opr, stop);
    var r := Reduce(popped, st.opr[|st.opr| - 1], app, env);
    if r.Ok? {
      assert r.value.opr == popped.opr && r.value.arity == popped.arity;
      UnwindStep(st, stop, keep, app, env, r.value);
    } else {
      UnwindStepFails(st, stop, keep, app, env);
    }
  }

  lemma UnwindStepFails(st: State, stop: Stop, keep: bool, app: Applicator, env: Env)
    requires |st.opr| > 0 && !Stops(stop, st.opr[|st.opr| - 1])
    requires Reduce(st.(opr := st.opr[..|st.opr| - 1]), st.opr[|st.opr| - 1], app, env).Err?
    ensures Unwind(st, stop, keep, app, env).Err?
  {
  }

  /** Removing a top operator at which `stop` does not halt keeps the
      operators above the stop fixed-arity, and that top one was too. */
  lemma FixedArityBelowTop(opr: seq<Token>, stop: Stop)
    requires |opr| > 0 && !Stops(stop, opr[|opr| - 1])
    requires FixedArityAbove(opr, LastStop(stop, opr))
    ensures FixedArity(FunFrom(opr[|opr| - 1])).Some?
    ensures FixedArityAbove(opr[..|opr| - 1], LastStop(stop, opr[..|opr| - 1]))
  {
    assert LastStop(stop, opr) == LastStop(stop, opr[..|opr| - 1]);
  }

  /** An `Empty` token aborts the parse; a non-empty leftover fragment
      stack aborts it too. */
  lemma Aborts(st: State, app: Applicator, env: Env)
    ensures Handle(st, Token.Empty, app, env) == Err(GotEmpty)
    ensures var r := Unwind(st, Never, true, app, env);
      r.Ok? ==>
        && r.value.opr == []
        && (|r.value.node| > 1 ==> Finish(st, app, env) == Err(TooManyMembers(|r.value.node|)))
        && (|r.value.node| == 0 ==> Finish(st, app, env) == Err(NoFragment))
        && (|r.value.node| == 1 ==> Finish(st, app, env) == Ok(r.value.node[0]))
  {
  }

  // ---- worked examples ----

  lemma StepNum(st: State, x: real, app: Applicator, env: Env)
    ensures Step(st, Token.Num(x), app, env)
      == Ok(State(st.prev + [Token.Num(x)], st.opr, st.node + [Leaf(x)], st.arity))
  {
  }

  /** A binary operator after a value, with nothing pending that it
      could reduce. */
  lemma StepBinaryOnEmpty(st: State, t: Token, app: Applicator, env: Env)
    requires t.Add? || t.Sub? || t.Mul? || t.Div? || t.Imod?
    requires st.opr == [] && AfterValue(st)
    ensures Step(st, t, app, env) == Ok(State(st.prev + [t], [t], st.node, st.arity))
  {
    assert Unwind(st, AtParL, true, app, env) == Ok(st);
    assert Unwind(st, AtAdditive, true, app, env) == Ok(st);
    assert Push([], t) == [t];
    if t.Add? || t.Sub? {
      assert Handle(st, t, app, env) == HandleAdditive(st, t, app, env);
    } else {
      assert Handle(st, t, app, env) == HandleMultiplicative(st, t, app, env);
    }
  }

  lemma BinaryRun(x: real, t: Token, y: real, app: Applicator, env: Env)
    requires t.Add? || t.Sub? || t.Mul? || t.Div? || t.Imod?
    ensures Run(Initial, [Token.Num(x), t, Token.Num(y)], app, env)
      == Ok(State([Token.Num(x), t, Token.Num(y)], [t], [Leaf(x), Leaf(y)], []))
  {
    BinarySteps(x, t, y, app, env);
    assert [Token.Num(x), t, Token.Num(y)][3..] == [];
    RunThree(Initial, [Token.Num(x), t, Token.Num(y)], State([Token.Num(x)], [], [Leaf(x)], []),
      State([Token.Num(x), t], [t], [Leaf(x)], []), State([Token.Num(x), t, Token.Num(y)], [t], [Leaf(x), Leaf(y)], []), app, env);
  }

  /** The three steps of `x op y`. */
  lemma BinarySteps(x: real, t: Token, y: real, app: Applicator, env: Env)
    requires t.Add? || t.Sub? || t.Mul? || t.Div? || t.Imod?
    ensures Step(Initial, Token.Num(x), app, env) == Ok(State([Token.Num(x)], [], [Leaf(x)], []))
    ensures Step(State([Token.Num(x)], [], [Leaf(x)], []), t, app, env) == Ok(State([Token.Num(x), t], [t], [Leaf(x)], []))
    ensures Step(State([Token.Num(x), t], [t], [Leaf(x)], []), Token.Num(y), app, env)
      == Ok(State([Token.Num(x), t, Token.Num(y)], [t], [Leaf(x), Leaf(y)], []))
  {
    var s1 := State([Token.Num(x)], [], [Leaf(x)], []);
    var s2 := State([Token.Num(x), t], [t], [Leaf(x)], []);
    StepNum(Initial, x, app, env);
    assert [] + [Leaf(x)] == [Leaf(x)] && [] + [Token.Num(x)] == [Token.Num(x)];
    StepBinaryOnEmpty(s1, t, app, env);
    assert s1.prev + [t] == s2.prev;
    StepNum(s2, y, app, env);
    assert s2.prev + [Token.Num(y)] == [Token.Num(x), t, Token.Num(y)] && s2.node + [Leaf(y)] == [Leaf(x), Leaf(y)];
  }

  /** Three tokens that each step to the next state start the run. */
  lemma RunThree(st: State, ts: seq<Token>, s1: State, s2: State, s3: State, app: Applicator, env: Env)
    requires |ts| >= 3
    requires Step(st, ts[0], app, env) == Ok(s1) && Step(s1, ts[1], app, env) == Ok(s2)
    requires Step(s2, ts[2], app, env) == Ok(s3)
    ensures Run(st, ts, app, env) == Run(s3, ts[3..], app, env)
  {
    RunStep(st, ts, app, env, s1);
    RunStep(s1, ts[1..], app, env, s2);
    RunStep(s2, ts[1..][1..], app, env, s3);
    assert ts[1..][1..][1..] == ts[3..];
  }

  /** Draining a single pending operator whose fixed arity matches the
      fragment count calls the applicator once on all fragments. */
  lemma FinishOne(st: State, app: Applicator, env: Env)
    requires |st.opr| == 1 && FixedArity(FunFrom(st.opr[0])) == Some(|st.node|)
    ensures Finish(st, app, env) == Ok(app(st.node, FunFrom(st.opr[0]), env))
  {
    var popped := st.(opr := []);
    var next := popped.(node := [app(st.node, FunFrom(st.opr[0]), env)]);
    assert st.node[|st.node| - |st.node|..] == st.node;
    assert st.node[..0] + [app(st.node, FunFrom(st.opr[0]), env)] == next.node;
    assert Reduce(popped, st.opr[0], app, env) == Ok(next);
    assert Unwind(st, Never, true, app, env) == Ok(next);
  }

  /** `x + y` (and likewise `-`, `*`, `/`, infix modulo) between two
      numbers parses to the node with the numbers in written order. */
  lemma BinaryExample(x: real, t: Token, y: real, env: Env)
    requires t.Add? || t.Sub? || t.Mul? || t.Div? || t.Imod?
    ensures ParseFn([Token.Num(x), t, Token.Num(y)], Identity, env) == Ok(Node([Leaf(x), Leaf(y)], FunFrom(t)))
  {
    var app := Identity;
    BinaryParsed(x, t, y, app, env);
    assert app([Leaf(x), Leaf(y)], FunFrom(t), env) == Node([Leaf(x), Leaf(y)], FunFrom(t));
  }

  /** `x op y` with any applicator: one call on both leaves, in order. */
  lemma BinaryParsed(x: real, t: Token, y: real, app: Applicator, env: Env)
    requires t.Add? || t.Sub? || t.Mul? || t.Div? || t.Imod?
    ensures ParseFn([Token.Num(x), t, Token.Num(y)], app, env) == Ok(app([Leaf(x), Leaf(y)], FunFrom(t), env))
  {
    var ts := [Token.Num(x), t, Token.Num(y)];
    var s3 := State(ts, [t], [Leaf(x), Leaf(y)], []);
    BinaryRun(x, t, y, app, env);
    ParseOfRun(ts, app, env, s3);
    BinaryArity(t);
    assert s3.opr[0] == t && |s3.node| == 2;
    FinishOne(s3, app, env);
  }

  /** The infix operators a number can be followed by are binary. */
  lemma BinaryArity(t: Token)
    requires t.Add? || t.Sub? || t.Mul? || t.Div? || t.Imod?
    ensures FixedArity(FunFrom(t)) == Some(2)
  {
    if t.Add? {
    } else if t.Sub? {
    } else if t.Mul? {
    } else if t.Div? {
    } else {
    }
  }

  /** `5+7`: verbatim it is an addition node, folded it is the leaf 12. */
  lemma PlusExample(m: Math)
    ensures var ts := [Token.Num(5.0), Token.Add, Token.Num(7.0)];
      && ParseFn(ts, Identity, Env(Ctx.EmptyCtx, m)) == Ok(Node([Leaf(5.0), Leaf(7.0)], Fun.Add))
      && Parse(ts, Env(Ctx.EmptyCtx, m)) == Ok(Leaf(12.0))
  {
    var env := Env(Ctx.EmptyCtx, m);
    BinaryExample(5.0, Token.Add, 7.0, env);
    BinaryParsed(5.0, Token.Add, 7.0, Basic, env);
    assert FunFrom(Token.Add) == Fun.Add;
    OptimizeExample(env);
    assert Basic([Leaf(5.0), Leaf(7.0)], Fun.Add, env) == Leaf(12.0);
  }

  /** A sign at the very start is pushed as the unary operator. */
  lemma StepSign(st: State, t: Token, app: Applicator, env: Env)
    requires (t.Add? || t.Sub?) && !AfterValue(st)
    ensures Step(st, t, app, env)
      == Ok(State(st.prev + [t], st.opr + [if t.Add? then Token.Plus else Token.Minus], st.node, st.arity))
  {
    assert Handle(st, t, app, env) == HandleAdditive(st, t, app, env);
  }

  /** A unary reduction takes the top fragment. */
  lemma ReduceUnary(st: State, op: Token, app: Applicator, env: Env)
    requires FixedArity(FunFrom(op)) == Some(1) && |st.node| >= 1
    ensures var n := |st.node|;
      Reduce(st, op, app, env) == Ok(st.(node := st.node[..n - 1] + [app([st.node[n - 1]], FunFrom(op), env)]))
  {
    var n := |st.node|;
    assert st.node[n - 1..] == [st.node[n - 1]];
  }

  /** `*` after a signed operand reduces the sign first. */
  lemma StepTimesAfterSign(st: State, app: Applicator, env: Env)
    requires st.opr == [Token.Minus] && |st.node| == 1
    ensures Step(st, Token.Mul, app, env)
      == Ok(State(st.prev + [Token.Mul], [Token.Mul], [app(st.node, Fun.Minus, env)], st.arity))
  {
    var next := st.(opr := [], node := [app(st.node, Fun.Minus, env)]);
    UnwindSign(st, app, env);
    StepMultiplicative(st, Token.Mul, app, env, next);
    assert next.opr + [Token.Mul] == [Token.Mul];
  }

  /** Draining a lone sign above one fragment applies it. */
  lemma UnwindSign(st: State, app: Applicator, env: Env)
    requires st.opr == [Token.Minus] && |st.node| == 1
    ensures Unwind(st, AtAdditive, true, app, env) == Ok(st.(opr := [], node := [app(st.node, Fun.Minus, env)]))
  {
    var next := st.(opr := [], node := [app(st.node, Fun.Minus, env)]);
    SignReduces(st, app, env);
    assert st.opr[..|st.opr| - 1] == [] && st.opr[|st.opr| - 1] == Token.Minus;
    assert st.(opr := st.opr[..|st.opr| - 1]) == st.(opr := []);
    UnwindStep(st, AtAdditive, true, app, env, next);
    UnwindEmpty(next, AtAdditive, true, app, env);
  }

  /** The reduction of a lone sign above one fragment. */
  lemma SignReduces(st: State, app: Applicator, env: Env)
    requires |st.node| == 1
    ensures Reduce(st.(opr := []), Token.Minus, app, env) == Ok(st.(opr := [], node := [app(st.node, Fun.Minus, env)]))
  {
    var popped := st.(opr := []);
    assert FunFrom(Token.Minus) == Fun.Minus && FixedArity(Fun.Minus) == Some(1);
    ReduceUnary(popped, Token.Minus, app, env);
    assert [popped.node[0]] == st.node;
    assert popped.node[..0] + [app([popped.node[0]], Fun.Minus, env)] == [app(st.node, Fun.Minus, env)];
  }

  /** With no operator pending, draining changes nothing. */
  lemma UnwindEmpty(st: State, stop: Stop, keep: bool, app: Applicator, env: Env)
    requires st.opr == []
    ensures Unwind(st, stop, keep, app, env) == Ok(st)
  {
  }

  /** A multiplicative operator drains down to the nearest additive one
      and is then pushed. */
  lemma StepMultiplicative(st: State, t: Token, app: Applicator, env: Env, next: State)
    requires IsMultiplicative(t) && Unwind(st, AtAdditive, true, app, env) == Ok(next)
    ensures Step(st, t, app, env) == Ok(next.(opr := next.opr + [t], prev := st.prev + [t]))
  {
    assert Handle(st, t, app, env) == HandleMultiplicative(st, t, app, env);
  }

  /** `-x*y` is `(-x)*y`: the sign binds tighter than the product. */
  lemma NegTimesExample(x: real, y: real, env: Env)
    ensures ParseFn([Token.Sub, Token.Num(x), Token.Mul, Token.Num(y)], Identity, env)
      == Ok(Node([Node([Leaf(x)], Fun.Minus), Leaf(y)], Fun.Mul))
    ensures Eval(Node([Node([Leaf(x)], Fun.Minus), Leaf(y)], Fun.Mul), env.math) == Ok(Value.Num(-x * y))
  {
    NegTimesParse(x, y, env);
    NegTimesEval(x, y, env.math);
  }

  lemma NegTimesEval(x: real, y: real, m: Math)
    ensures Eval(Node([Node([Leaf(x)], Fun.Minus), Leaf(y)], Fun.Mul), m) == Ok(Value.Num(-x * y))
  {
    EvalNode([Leaf(x)], Fun.Minus, [x], m);
    Signs([x], m);
    EvalNode([Node([Leaf(x)], Fun.Minus), Leaf(y)], Fun.Mul, [-x, y], m);
    assert Arithmetic(Fun.Mul, [-x, y], m).value == -x * y;
  }

  lemma NegTimesParse(x: real, y: real, env: Env)
    ensures ParseFn([Token.Sub, Token.Num(x), Token.Mul, Token.Num(y)], Identity, env)
      == Ok(Node([Node([Leaf(x)], Fun.Minus), Leaf(y)], Fun.Mul))
  {
    var app := Identity;
    var neg := app([Leaf(x)], Fun.Minus, env);
    NegTimesParsed(x, y, app, env);
    assert neg == Node([Leaf(x)], Fun.Minus);
    assert app([neg, Leaf(y)], Fun.Mul, env) == Node([neg, Leaf(y)], Fun.Mul);
  }

  /** `- x * y` with any applicator: the sign's fragment and `y` are the
      operands of the product. */
  lemma NegTimesParsed(x: real, y: real, app: Applicator, env: Env)
    ensures ParseFn([Token.Sub, Token.Num(x), Token.Mul, Token.Num(y)], app, env)
      == Ok(app([app([Leaf(x)], Fun.Minus, env), Leaf(y)], Fun.Mul, env))
  {
    var ts := [Token.Sub, Token.Num(x), Token.Mul, Token.Num(y)];
    var st := State(ts, [Token.Mul], [app([Leaf(x)], Fun.Minus, env), Leaf(y)], []);
    NegTimesRun(x, y, app, env);
    ParseOfRun(ts, app, env, st);
    FinishProduct(ts, st.node[0], st.node[1], app, env);
  }

  /** A pending product over exactly two fragments finishes as one call. */
  lemma FinishProduct(ts: seq<Token>, a: Ast, b: Ast, app: Applicator, env: Env)
    ensures Finish(State(ts, [Token.Mul], [a, b], []), app, env) == Ok(app([a, b], Fun.Mul, env))
  {
    var st := State(ts, [Token.Mul], [a, b], []);
    MulIsBinary();
    assert st.opr[0] == Token.Mul && |st.node| == 2;
    FinishOne(st, app, env);
  }

  lemma MulIsBinary()
    ensures FunFrom(Token.Mul) == Fun.Mul && FixedArity(Fun.Mul) == Some(2)
  {
  }

  /** A parse whose token loop ends in `st` is `st` finished. */
  lemma ParseOfRun(ts: seq<Token>, app: Applicator, env: Env, st: State)
    requires Run(Initial, ts, app, env) == Ok(st)
    ensures ParseFn(ts, app, env) == Finish(st, app, env)
  {
  }

  /** The last three tokens of `- x * y`, after the sign. */
  lemma NegTimesTail(x: real, y: real, app: Applicator, env: Env)
    ensures Run(State([Token.Sub], [Token.Minus], [], []), [Token.Num(x), Token.Mul, Token.Num(y)], app, env)
      == Ok(State([Token.Sub, Token.Num(x), Token.Mul, Token.Num(y)], [Token.Mul], [app([Leaf(x)], Fun.Minus, env), Leaf(y)], []))
  {
    var s1 := State([Token.Sub], [Token.Minus], [], []);
    var s2 := State([Token.Sub, Token.Num(x)], [Token.Minus], [Leaf(x)], []);
    var s3 := State([Token.Sub, Token.Num(x), Token.Mul], [Token.Mul], [app([Leaf(x)], Fun.Minus, env)], []);
    var s4 := State([Token.Sub, Token.Num(x), Token.Mul, Token.Num(y)], [Token.Mul], [app([Leaf(x)], Fun.Minus, env), Leaf(y)], []);
    var t3 := [Token.Num(y)];
    var t2 := [Token.Mul, Token.Num(y)];
    var t1 := [Token.Num(x), Token.Mul, Token.Num(y)];
    assert Run(s3, t3, app, env) == Ok(s4) by {
      StepNum(s3, y, app, env);
      assert s3.node + [Leaf(y)] == s4.node && s3.prev + [Token.Num(y)] == s4.prev;
      RunStep(s3, t3, app, env, s4);
      assert t3[1..] == [];
    }
    assert Run(s2, t2, app, env) == Ok(s4) by {
      StepTimesAfterSign(s2, app, env);
      assert s2.prev + [Token.Mul] == s3.prev;
      RunStep(s2, t2, app, env, s3);
      assert t2[1..] == t3;
    }
    StepNum(s1, x, app, env);
    assert s1.prev + [Token.Num(x)] == s2.prev && [] + [Leaf(x)] == [Leaf(x)];
    RunStep(s1, t1, app, env, s2);
    assert t1[1..] == t2;
  }

  lemma NegTimesRun(x: real, y: real, app: Applicator, env: Env)
    ensures var ts := [Token.Sub, Token.Num(x), Token.Mul, Token.Num(y)];
      Run(Initial, ts, app, env) == Ok(State(ts, [Token.Mul], [app([Leaf(x)], Fun.Minus, env), Leaf(y)], []))
  {
    var s1 := State([Token.Sub], [Token.Minus], [], []);
    var t1 := [Token.Num(x), Token.Mul, Token.Num(y)];
    NegTimesTail(x, y, app, env);
    StepSign(Initial, Token.Sub, app, env);
    assert [] + [Token.Sub] == [Token.Sub] && [] + [Token.Minus] == [Token.Minus];
    RunStep(Initial, [Token.Sub] + t1, app, env, s1);
    assert ([Token.Sub] + t1)[1..] == t1;
    assert [Token.Sub] + t1 == [Token.Sub, Token.Num(x), Token.Mul, Token.Num(y)];
  }

  /** `Run` unrolled once. */
  lemma RunStep(st: State, ts: seq<Token>, app: Applicator, env: Env, next: State)
    requires |ts| > 0 && Step(st, ts[0], app, env) == Ok(next)
    ensures Run(st, ts, app, env) == Run(next, ts[1..], app, env)
  {
  }

  lemma StepPower(st: State, app: Applicator, env: Env)
    ensures Step(st, Token.Ipow, app, env)
      == Ok(State(st.prev + [Token.Ipow], st.opr + [Token.Ipow], st.node, st.arity))
  {
  }

  lemma PowerRun(a: real, b: real, c: real, app: Applicator, env: Env)
    ensures var ts := [Token.Num(a), Token.Ipow, Token.Num(b), Token.Ipow, Token.Num(c)];
      Run(Initial, ts, app, env) == Ok(State(ts, [Token.Ipow, Token.Ipow], [Leaf(a), Leaf(b), Leaf(c)], []))
  {
    var ts := [Token.Num(a), Token.Ipow, Token.Num(b), Token.Ipow, Token.Num(c)];
    var s3 := State([Token.Num(a), Token.Ipow, Token.Num(b)], [Token.Ipow], [Leaf(a), Leaf(b)], []);
    var s5 := State(ts, [Token.Ipow, Token.Ipow], [Leaf(a), Leaf(b), Leaf(c)], []);
    assert s3.prev + [Token.Ipow, Token.Num(c)] == ts;
    assert s3.opr + [Token.Ipow] == [Token.Ipow, Token.Ipow];
    assert s3.node + [Leaf(c)] == [Leaf(a), Leaf(b), Leaf(c)];
    assert State(s3.prev + [Token.Ipow, Token.Num(c)], s3.opr + [Token.Ipow], s3.node + [Leaf(c)], s3.arity) == s5;
    PowerRunTail(s3, c, app, env);
    PowerRunHead(a, b, c, app, env);
  }

  lemma PowerRunHead(a: real, b: real, c: real, app: Applicator, env: Env)
    ensures var ts := [Token.Num(a), Token.Ipow, Token.Num(b), Token.Ipow, Token.Num(c)];
      Run(Initial, ts, app, env)
        == Run(State([Token.Num(a), Token.Ipow, Token.Num(b)], [Token.Ipow], [Leaf(a), Leaf(b)], []), [Token.Ipow, Token.Num(c)], app, env)
  {
    var ts := [Token.Num(a), Token.Ipow, Token.Num(b), Token.Ipow, Token.Num(c)];
    PowerSteps(a, b, app, env);
    assert ts[3..] == [Token.Ipow, Token.Num(c)];
    RunThree(Initial, ts, State([Token.Num(a)], [], [Leaf(a)], []), State([Token.Num(a), Token.Ipow], [Token.Ipow], [Leaf(a)], []),
      State([Token.Num(a), Token.Ipow, Token.Num(b)], [Token.Ipow], [Leaf(a), Leaf(b)], []), app, env);
  }

  /** The three steps of `a ^ b`. */
  lemma PowerSteps(a: real, b: real, app: Applicator, env: Env)
    ensures Step(Initial, Token.Num(a), app, env) == Ok(State([Token.Num(a)], [], [Leaf(a)], []))
    ensures Step(State([Token.Num(a)], [], [Leaf(a)], []), Token.Ipow, app, env)
      == Ok(State([Token.Num(a), Token.Ipow], [Token.Ipow], [Leaf(a)], []))
    ensures Step(State([Token.Num(a), Token.Ipow], [Token.Ipow], [Leaf(a)], []), Token.Num(b), app, env)
      == Ok(State([Token.Num(a), Token.Ipow, Token.Num(b)], [Token.Ipow], [Leaf(a), Leaf(b)], []))
  {
    var s1 := State([Token.Num(a)], [], [Leaf(a)], []);
    var s2 := State([Token.Num(a), Token.Ipow], [Token.Ipow], [Leaf(a)], []);
    StepNum(Initial, a, app, env);
    assert [] + [Token.Num(a)] == s1.prev && [] + [Leaf(a)] == [Leaf(a)];
    StepPower(s1, app, env);
    assert s1.prev + [Token.Ipow] == s2.prev && [] + [Token.Ipow] == [Token.Ipow];
    StepNum(s2, b, app, env);
    assert s2.prev + [Token.Num(b)] == [Token.Num(a), Token.Ipow, Token.Num(b)] && s2.node + [Leaf(b)] == [Leaf(a), Leaf(b)];
  }

  /** An infix power and a number at the end of the input. */
  lemma PowerRunTail(st: State, c: real, app: Applicator, env: Env)
    ensures Run(st, [Token.Ipow, Token.Num(c)], app, env)
      == Ok(State(st.prev + [Token.Ipow, Token.Num(c)], st.opr + [Token.Ipow], st.node + [Leaf(c)], st.arity))
  {
    var ts := [Token.Ipow, Token.Num(c)];
    var s1 := State(st.prev + [Token.Ipow], st.opr + [Token.Ipow], st.node, st.arity);
    var s2 := State(st.prev + [Token.Ipow, Token.Num(c)], st.opr + [Token.Ipow], st.node + [Leaf(c)], st.arity);
    StepPower(st, app, env);
    assert Step(s1, ts[1], app, env) == Ok(s2) by {
      StepNum(s1, c, app, env);
      assert s1.prev + [Token.Num(c)] == s2.prev;
    }
    RunStep(st, ts, app, env, s1);
    RunStep(s1, ts[1..], app, env, s2);
    assert ts[2..] == [];
  }

  /** `Unwind` unrolled once, past an operator it reduces. */
  lemma UnwindStep(st: State, stop: Stop, keep: bool, app: Applicator, env: Env, next: State)
    requires |st.opr| > 0 && !Stops(stop, st.opr[|st.opr| - 1])
    requires Reduce(st.(opr := st.opr[..|st.opr| - 1]), st.opr[|st.opr| - 1], app, env) == Ok(next)
    ensures Unwind(st, stop, keep, app, env) == Unwind(next, stop, keep, app, env)
  {
  }

  /** A binary reduction takes the top two fragments, in order. */
  lemma ReduceBinary(st: State, op: Token, app: Applicator, env: Env)
    requires FixedArity(FunFrom(op)) == Some(2) && |st.node| >= 2
    ensures var n := |st.node|;
      Reduce(st, op, app, env)
        == Ok(st.(node := st.node[..n - 2] + [app([st.node[n - 2], st.node[n - 1]], FunFrom(op), env)]))
  {
    var n := |st.node|;
    assert st.node[n - 2..] == [st.node[n - 2], st.node[n - 1]];
  }

  lemma PowerFinish(ts: seq<Token>, a: real, b: real, c: real, app: Applicator, env: Env)
    ensures Finish(State(ts, [Token.Ipow, Token.Ipow], [Leaf(a), Leaf(b), Leaf(c)], []), app, env)
      == Ok(app([Leaf(a), app([Leaf(b), Leaf(c)], Fun.Pow, env)], Fun.Pow, env))
  {
    var s5 := State(ts, [Token.Ipow, Token.Ipow], [Leaf(a), Leaf(b), Leaf(c)], []);
    var inner := app([Leaf(b), Leaf(c)], Fun.Pow, env);
    var p := State(ts, [Token.Ipow], [Leaf(a), Leaf(b), Leaf(c)], []);
    var t1 := State(ts, [Token.Ipow], [Leaf(a), inner], []);
    ReduceBinary(p, Token.Ipow, app, env);
    assert p.node[..1] + [inner] == t1.node;
    assert s5.opr[..1] == [Token.Ipow];
    UnwindStep(s5, Never, true, app, env, t1);
    FinishOne(t1, app, env);
  }

  /** Infix `Ipow` is pushed without reducing, so `a Ipow b Ipow c` builds
      `Pow(a, Pow(b, c))`. */
  lemma PowerExample(a: real, b: real, c: real, env: Env)
    ensures ParseFn([Token.Num(a), Token.Ipow, Token.Num(b), Token.Ipow, Token.Num(c)], Identity, env)
      == Ok(Node([Leaf(a), Node([Leaf(b), Leaf(c)], Fun.Pow)], Fun.Pow))
  {
    var ts := [Token.Num(a), Token.Ipow, Token.Num(b), Token.Ipow, Token.Num(c)];
    PowerRun(a, b, c, Identity, env);
    PowerFinish(ts, a, b, c, Identity, env);
  }
}
