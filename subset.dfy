/** The restricted input language the generator accepts, stated on the tree
    itself: which literals, operators, paths, statements and types are inside
    it, and the expansion contract that no macro node survives. */
module Subset {
  import opened Ast

  predicate SupportedTy(t: Ty) {
    t == Tup([]) || (t.PathTy? && |t.tyPath.segments| == 1)
  }

  predicate SupportedLit(l: Lit) {
    l.Int? || l.Float? || l.FloatUnsuffixed?
  }

  predicate SupportedBinOp(op: BinOp) {
    op in {Add, Sub, Mul, Div, And, Or, Eq, Lt, Le, Ne, Ge, Gt}
  }

  predicate SupportedUnOp(op: UnOp) {
    op == Not || op == Neg
  }

  /** `x`: a by-value, immutable binding with no `@` sub-pattern. */
  predicate PlainBinding(p: Pat) {
    p.IdentPat? && p.mode == ByValue(Immutable) && p.sub.None?
  }

  predicate SupportedExpr(e: Expr)
    decreases e
  {
    match e
    case LitExpr(l) => SupportedLit(l)
    case PathExpr(_, p) => |p.segments| == 1
    case Binary(op, l, r) => SupportedBinOp(op) && SupportedExpr(l) && SupportedExpr(r)
    case Unary(op, x) => SupportedUnOp(op) && SupportedExpr(x)
    case If(c, thn, els) =>
      SupportedExpr(c) && SupportedBlock(thn) && (els.Some? ==> SupportedExpr(els.value))
    case Assign(l, r) => SupportedExpr(l) && SupportedExpr(r)
    case Ret(v) => v.Some? ==> SupportedExpr(v.value)
    case Call(f, args) => SupportedExpr(f) && forall i :: 0 <= i < |args| ==> SupportedExpr(args[i])
    case Field(b, _) => SupportedExpr(b)
    case Paren(x) => SupportedExpr(x)
    case BlockExpr(b) => SupportedBlock(b)
    case MacExpr => false
    case OtherExpr => false
  }

  predicate SupportedBlock(b: Block)
    decreases b
  {
    forall i :: 0 <= i < |b.stmts| ==> SupportedStmt(b.stmts[i])
  }

  /** A typed `let` of a plain binding, or an expression statement. */
  predicate SupportedStmt(s: Stmt)
    decreases s
  {
    match s
    case LocalStmt(l) =>
      PlainBinding(l.pat) && l.ty.Some? && SupportedTy(l.ty.value) &&
      (l.init.Some? ==> SupportedExpr(l.init.value))
    case ItemStmt(_) => false
    case ExprStmt(x) => SupportedExpr(x)
    case Semi(x) => SupportedExpr(x)
    case MacStmt => false
  }

  predicate MacFreeExpr(e: Expr)
    decreases e
  {
    match e
    case LitExpr(_) => true
    case PathExpr(_, _) => true
    case Binary(_, l, r) => MacFreeExpr(l) && MacFreeExpr(r)
    case Unary(_, x) => MacFreeExpr(x)
    case If(c, thn, els) => MacFreeExpr(c) && MacFreeBlock(thn) && (els.Some? ==> MacFreeExpr(els.value))
    case Assign(l, r) => MacFreeExpr(l) && MacFreeExpr(r)
    case Ret(v) => v.Some? ==> MacFreeExpr(v.value)
    case Call(f, args) => MacFreeExpr(f) && forall i :: 0 <= i < |args| ==> MacFreeExpr(args[i])
    case Field(b, _) => MacFreeExpr(b)
    case Paren(x) => MacFreeExpr(x)
    case BlockExpr(b) => MacFreeBlock(b)
    case MacExpr => false
    case OtherExpr => true
  }

  predicate MacFreeBlock(b: Block)
    decreases b
  {
    forall i :: 0 <= i < |b.stmts| ==> MacFreeStmt(b.stmts[i])
  }

  predicate MacFreeStmt(s: Stmt)
    decreases s
  {
    match s
    case LocalStmt(l) => l.init.Some? ==> MacFreeExpr(l.init.value)
    case ItemStmt(it) => MacFreeItem(it)
    case ExprStmt(x) => MacFreeExpr(x)
    case Semi(x) => MacFreeExpr(x)
    case MacStmt => false
  }

  predicate MacFreeItem(it: Item)
    decreases it
  {
    match it.kind
    case Static(_, _, x) => MacFreeExpr(x)
    case Const(_, x) => MacFreeExpr(x)
    case Fn(_, _, _, _, _, body) => MacFreeBlock(body)
    case MacItem => false
    case OtherItem => true
  }

  /** The macro expander's contract: no macro node anywhere in the crate. */
  predicate MacFreeCrate(k: Crate) {
    forall i :: 0 <= i < |k.items| ==> MacFreeItem(k.items[i])
  }
}
