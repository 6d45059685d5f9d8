/** The getter resolver (src/calc/ctx.rs): a path is looked up to a tree
    fragment, or fails. The trait method takes no receiver, so a resolver
    is just a function of the path; `None` stands for `Err(())`. */
module Ctx {
  import opened Wrappers
  import opened Syntax

  type Resolver = string -> Option<Ast>

  /** The shapes a resolver is documented to return: a `List` node, a
      leaf, or the empty marker for an empty getter. */
  predicate DocumentedShape(a: Ast) {
    (a.Node? && a.fun == Fun.List) || a.Leaf? || a.Empty?
  }

  /** A resolver all of whose successful lookups have a documented shape. */
  ghost predicate Documented(get: Resolver) {
    forall p :: get(p).Some? ==> DocumentedShape(get(p).value)
  }

  /** `EmptyCtx`: every lookup succeeds with the empty marker. */
  function EmptyCtx(path: string): Option<Ast> {
    Some(Ast.Empty)
  }

  /** `EmptyCtx` never fails, answers every path alike, and keeps to the
      documented shapes. */
  lemma EmptyCtxAnswers(p: string, q: string)
    ensures EmptyCtx(p).Some? && EmptyCtx(p).value.Empty?
    ensures EmptyCtx(p) == EmptyCtx(q)
    ensures Documented(EmptyCtx)
  {
  }
}
