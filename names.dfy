/** Reducing a path or a binding pattern to a plain name (src/util.rs). */
module Names {
  import opened Ast

  /** `simple_path`: the name of a path with exactly one segment. The guard
      on the segment's generic parameters is commented out in the source, so
      they are not looked at. */
  function SimplePath(p: Path): (r: Option<Ident>)
    ensures r.Some? <==> |p.segments| == 1
    ensures r.Some? ==> r.value == p.segments[0].ident
  {
    if |p.segments| == 1 then Some(p.segments[0].ident) else None
  }

  /** Two paths whose segments carry the same identifiers reduce alike,
      whatever their generic parameters and their leading `::`. */
  lemma SimplePathIgnoresParameters(p: Path, q: Path)
    requires |p.segments| == |q.segments|
    requires forall i :: 0 <= i < |p.segments| ==> p.segments[i].ident == q.segments[i].ident
    ensures SimplePath(p) == SimplePath(q)
  {
  }

  /** `pat_to_var`: the name bound by `x`, and nothing for any other pattern. */
  function PatToVar(p: Pat): (r: Option<Ident>)
    ensures r.Some? <==> p.IdentPat? && p.mode == ByValue(Immutable) && p.sub.None?
    ensures r.Some? ==> r.value == p.name
  {
    match p
    case IdentPat(ByValue(Immutable), name, None) => Some(name)
    case _ => None
  }

  /** The only pattern that reduces to `n` is the plain binding `n` itself:
      no renaming, and `mut x`, `ref x`, `ref mut x` and `x @ p` are refused. */
  lemma PatToVarExactly(p: Pat, n: Ident)
    ensures PatToVar(p) == Some(n) <==> p == IdentPat(ByValue(Immutable), n, None)
    ensures PatToVar(IdentPat(ByValue(Mutable), n, None)) == None
    ensures PatToVar(IdentPat(ByRef(Immutable), n, None)) == None
    ensures PatToVar(IdentPat(ByRef(Mutable), n, None)) == None
    ensures PatToVar(IdentPat(ByValue(Immutable), n, Some(p))) == None
  {
  }
}
