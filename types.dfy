/** The type translator (src/ty.rs): `()` becomes `void`, a one-segment
    path is printed with the single remapping `f32` -> `float`, and every
    other type shape is refused with one diagnostic. */
module Types {
  import opened Ast
  import opened Writer
  import Names
  import Subset
  import Text

  function TyOutput(t: Ty): (r: Output)
    ensures !r.fault
    ensures |r.diags| <= 1
    ensures r.diags == [] <==> r.text != ""
    ensures Text.ParenFree(r.text)
  {
    match t
    case Tup(elems) =>
      if |elems| == 0 then Emit("void") else Error("can't translate this sort of type")
    case PathTy(_, p) =>
      (match Names.SimplePath(p)
       case None => Error("can't translate qualified / parametrized name")
       case Some(name) => Emit(if name == "f32" then "float" else name))
    case OtherTy => Error("can't translate this sort of type")
  }

  /** `translate` in src/ty.rs, appending to the session's buffer. */
  method TranslateTy(s: Session, t: Ty)
    requires !s.fault
    modifies s
    ensures s.State() == old(s.State()).Then(TyOutput(t))
  {
    if t.Tup? && |t.elems| == 0 {
      s.Write("void");
    } else if t.PathTy? {
      match Names.SimplePath(t.tyPath)
      case None =>
        s.SpanErr("can't translate qualified / parametrized name");
      case Some(name) =>
        var glsl := if name == "f32" then "float" else name;
        s.Write(glsl);
    } else {
      s.SpanErr("can't translate this sort of type");
    }
  }

  /** The remapping table has one entry: a one-segment type name is printed
      unchanged exactly when it is not `f32`, and `f32` becomes `float`. */
  lemma OnlyF32Remapped(q: Option<Ty>, global: bool, seg: PathSegment)
    ensures var r := TyOutput(PathTy(q, Path(global, [seg])));
      r.diags == [] && (r.text == seg.ident <==> seg.ident != "f32") &&
      (seg.ident == "f32" ==> r.text == "float")
  {
  }

  /** `()` is `void`; a tuple with elements is refused. */
  lemma TupleTypes(elems: seq<Ty>)
    ensures TyOutput(Tup(elems)) ==
      if elems == [] then Emit("void") else Error("can't translate this sort of type")
  {
  }

  /** A path type of zero or several segments is refused as qualified. */
  lemma QualifiedTypeRefused(q: Option<Ty>, p: Path)
    requires |p.segments| != 1
    ensures TyOutput(PathTy(q, p)) == Error("can't translate qualified / parametrized name")
  {
  }

  /** A type translates without diagnostic exactly when it is in the
      accepted subset. */
  lemma TyCleanIff(t: Ty)
    ensures TyOutput(t).Clean() <==> Subset.SupportedTy(t)
  {
  }
}
