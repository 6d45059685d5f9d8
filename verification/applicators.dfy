/** The applicators (src/calc/parser/applicators.rs): what the parser does
    with a tag and its children each time it reduces. `Identity` builds the
    node as it is, `Optimize` folds it to a leaf when it evaluates, and
    `Basic` first rewrites `muk` getters under a multiplication. */
module Applicators {
  import opened Wrappers
  import opened Syntax
  import opened Calc
  import opened Ctx

  /** The context handed to an applicator: the getter resolver, and the
      transcendental functions the evaluator needs. */
  datatype Env = Env(get: Resolver, math: Math)

  type Applicator = (seq<Ast>, Fun, Env) -> Ast

  predicate IsGet(n: Ast) {
    n.Get?
  }

  /** `has_get`: pops the children from the back until one is a getter. */
  function HasGet(ns: seq<Ast>): (r: bool)
    ensures r <==> exists i :: 0 <= i < |ns| && IsGet(ns[i])
  {
    if |ns| == 0 then false
    else if IsGet(ns[|ns| - 1]) then true
    else
      var r := HasGet(ns[..|ns| - 1]);
      assert forall i :: 0 <= i < |ns| - 1 ==> ns[..|ns| - 1][i] == ns[i];
      r
  }

  /** `empty`: the node, built verbatim. */
  function Identity(nodes: seq<Ast>, fun: Fun, env: Env): Ast {
    Node(nodes, fun)
  }

  /** `optimize`: a leaf holding the node's value when it evaluates to a
      number, the unevaluated node otherwise. Either way the fragment
      evaluates exactly as the node would. */
  function Optimize(nodes: seq<Ast>, fun: Fun, env: Env): (r: Ast)
    ensures r.Leaf? <==> Eval(Node(nodes, fun), env.math).Ok?
    ensures r.Leaf? ==> Eval(Node(nodes, fun), env.math) == Ok(Num(r.n))
    ensures !r.Leaf? ==> r == Node(nodes, fun)
    ensures Eval(r, env.math) == Eval(Node(nodes, fun), env.math)
  {
    match Eval(Node(nodes, fun), env.math)
    case Ok(Num(n)) => Leaf(n)
    case _ => Node(nodes, fun)
  }

  /** One of two children is the getter `muk` and the other a getter. */
  predicate MukPair(a: Ast, b: Ast) {
    (a == Get("muk") && IsGet(b)) || (b == Get("muk") && IsGet(a))
  }

  /** `fix_mulget`: a multiplication whose last two children are `muk` and
      another getter becomes the getter `muk` followed by the path of the
      second-to-last child. The getter test on all children that guards it
      is implied, and fewer than two children never rewrite. */
  function FixMulget(nodes: seq<Ast>, fun: Fun): (r: Option<Ast>)
    ensures r.Some? <==>
      fun == Fun.Mul && |nodes| >= 2 && MukPair(nodes[|nodes| - 1], nodes[|nodes| - 2])
    ensures r.Some? ==> nodes[|nodes| - 2].Get? && r.value == Get("muk" + nodes[|nodes| - 2].path)
  {
    if fun == Fun.Mul && HasGet(nodes) then
      if |nodes| < 2 then None
      else
        var a := nodes[|nodes| - 1];
        var b := nodes[|nodes| - 2];
        // in both accepted cases `b` is a getter, so the source's panic
        // branch cannot be taken
        if MukPair(a, b) then Some(Get("muk" + b.path)) else None
    else None
  }

  /** `basic`: when the `muk` rewrite fires, the resolver's fragment for
      the new path, or the new getter itself when the lookup fails;
      otherwise `Optimize`. */
  function Basic(nodes: seq<Ast>, fun: Fun, env: Env): (r: Ast)
    ensures !HasGet(nodes) ==> r == Optimize(nodes, fun, env)
    ensures FixMulget(nodes, fun).None? ==> r == Optimize(nodes, fun, env)
    ensures FixMulget(nodes, fun).Some? ==>
      var s := "muk" + nodes[|nodes| - 2].path;
      (env.get(s).Some? && r == env.get(s).value) || (env.get(s).None? && r == Get(s))
  {
    match FixMulget(nodes, fun)
    case Some(n) =>
      var l := env.get(n.path);
      if l.Some? then l.value else Get(n.path)
    case None => Optimize(nodes, fun, env)
  }

  /** An applicator that, on children none of which is a getter, returns a
      fragment that is not a getter and evaluates exactly as the node. */
  ghost predicate Sound(app: Applicator, env: Env) {
    forall ns, f :: !HasGet(ns) ==>
      !app(ns, f, env).Get? && Eval(app(ns, f, env), env.math) == Eval(Node(ns, f), env.math)
  }

  /** All three applicators are sound: folding and the `muk` rewrite do not
      change what a getter-free tree evaluates to. */
  lemma ApplicatorsSound(env: Env)
    ensures Sound(Identity, env)
    ensures Sound(Optimize, env)
    ensures Sound(Basic, env)
  {
    forall ns, f | !HasGet(ns)
      ensures !Optimize(ns, f, env).Get?
      ensures Eval(Optimize(ns, f, env), env.math) == Eval(Node(ns, f), env.math)
      ensures Basic(ns, f, env) == Optimize(ns, f, env)
    {
    }
  }

  /** Folding depends only on what the children evaluate to: a node whose
      children are replaced by fragments that evaluate alike folds to the
      same leaf. */
  lemma OptimizeCongruent(cs: seq<Ast>, ds: seq<Ast>, f: Fun, env: Env)
    requires |cs| == |ds|
    requires forall i :: 0 <= i < |cs| ==> Eval(cs[i], env.math) == Eval(ds[i], env.math)
    requires Optimize(cs, f, env).Leaf?
    ensures Optimize(ds, f, env) == Optimize(cs, f, env)
  {
    EvalCongruent(cs, ds, f, env.math);
  }

  /** `optimize([Leaf 5, Leaf 7], Add)` is `Leaf 12`, whatever the context. */
  lemma OptimizeExample(env: Env)
    ensures Optimize([Leaf(5.0), Leaf(7.0)], Fun.Add, env) == Leaf(12.0)
  {
    MeanAndAddExamples(env.math);
  }

  /** `[x, muk]` rewrites to `mukx`, and `[muk, x]` to `mukmuk`: the path
      used is always the second-to-last child's. */
  lemma FixMulgetExamples(x: string)
    ensures FixMulget([Get(x), Get("muk")], Fun.Mul) == Some(Get("muk" + x))
    ensures FixMulget([Get("muk"), Get(x)], Fun.Mul) == Some(Get("mukmuk"))
    ensures FixMulget([Get("muk"), Get(x)], Fun.Add).None?
    ensures FixMulget([Get("muk")], Fun.Mul).None?
  {
    assert "muk" + "muk" == "mukmuk";
  }

  /** With `EmptyCtx`, a firing rewrite yields the empty marker, which the
      evaluator then rejects. */
  lemma EmptyCtxMuk(nodes: seq<Ast>, m: Math)
    requires FixMulget(nodes, Fun.Mul).Some?
    ensures Basic(nodes, Fun.Mul, Env(EmptyCtx, m)) == Ast.Empty
    ensures Eval(Basic(nodes, Fun.Mul, Env(EmptyCtx, m)), m).Err?
  {
  }
}
