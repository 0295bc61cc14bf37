/** Which trees the expression and block translators accept: once macros are
    expanded they never fault, and they record no diagnostic exactly when
    every literal, operator, path, type, pattern and statement in the tree
    is inside the supported subset. */
module Acceptance {
  import opened Ast
  import opened Writer
  import opened CodeGen
  import Types
  import Subset

  lemma {:induction false} ExprAccepted(e: Expr)
    requires Subset.MacFreeExpr(e)
    ensures !ExprOutput(e).fault
    ensures ExprOutput(e).diags == [] <==> Subset.SupportedExpr(e)
    decreases e, 1
  {
    match e
    case LitExpr(_) =>
    case PathExpr(_, _) =>
    case Binary(_, _, _) =>
      CompoundAccepted(e);
    case Unary(_, x) =>
      ExprAccepted(x);
    case If(_, _, _) =>
      CompoundAccepted(e);
    case Assign(l, r) =>
      ExprAccepted(l);
      ExprAccepted(r);
    case Ret(v) =>
      if v.Some? {
        ExprAccepted(v.value);
      }
    case Call(_, _) =>
      CompoundAccepted(e);
    case Field(b, _) =>
      ExprAccepted(b);
    case Paren(x) =>
      ExprAccepted(x);
    case BlockExpr(b) =>
      BlockAccepted(b);
    case OtherExpr =>
  }

  /** The cases of `ExprAccepted` with several translated children. */
  lemma {:induction false} CompoundAccepted(e: Expr)
    requires e.Binary? || e.If? || e.Call?
    requires Subset.MacFreeExpr(e)
    ensures !ExprOutput(e).fault
    ensures ExprOutput(e).diags == [] <==> Subset.SupportedExpr(e)
    decreases e, 0
  {
    match e
    case Binary(_, l, r) =>
      ExprAccepted(l);
      ExprAccepted(r);
    case If(c, thn, els) =>
      ExprAccepted(c);
      BlockAccepted(thn);
      if els.Some? {
        ExprAccepted(els.value);
      }
    case Call(f, args) =>
      ExprAccepted(f);
      ArgsAccepted(args);
  }

  lemma {:induction false} ArgsAccepted(args: seq<Expr>)
    requires forall i :: 0 <= i < |args| ==> Subset.MacFreeExpr(args[i])
    ensures !ArgsOutput(args).fault
    ensures ArgsOutput(args).diags == [] <==>
      forall i :: 0 <= i < |args| ==> Subset.SupportedExpr(args[i])
    decreases args, 1
  {
    if |args| > 0 {
      var init, last := args[..|args| - 1], args[|args| - 1];
      ArgsAccepted(init);
      ExprAccepted(last);
      assert args == init + [last];
      SupportedArgsSnoc(args, init, last);
    }
  }

  lemma SupportedArgsSnoc(args: seq<Expr>, init: seq<Expr>, last: Expr)
    requires args == init + [last]
    ensures (forall i :: 0 <= i < |args| ==> Subset.SupportedExpr(args[i])) <==>
      (forall i :: 0 <= i < |init| ==> Subset.SupportedExpr(init[i])) && Subset.SupportedExpr(last)
  {
    assert forall i :: 0 <= i < |init| ==> args[i] == init[i];
    assert args[|init|] == last;
  }

  lemma {:induction false} BlockAccepted(b: Block)
    requires Subset.MacFreeBlock(b)
    ensures !BlockOutput(b).fault
    ensures BlockOutput(b).diags == [] <==> Subset.SupportedBlock(b)
    decreases b, 1
  {
    StmtsAccepted(b.stmts);
  }

  lemma {:induction false} StmtsAccepted(ss: seq<Stmt>)
    requires forall i :: 0 <= i < |ss| ==> Subset.MacFreeStmt(ss[i])
    ensures !StmtsOutput(ss).fault
    ensures StmtsOutput(ss).diags == [] <==>
      forall i :: 0 <= i < |ss| ==> Subset.SupportedStmt(ss[i])
    decreases ss, 1
  {
    if |ss| > 0 {
      var init, last := ss[..|ss| - 1], ss[|ss| - 1];
      StmtsAccepted(init);
      StmtAccepted(last);
      assert StmtsOutput(ss).diags == StmtsOutput(init).diags + StmtOutput(last).diags;
      assert (forall i :: 0 <= i < |ss| ==> Subset.SupportedStmt(ss[i])) <==>
        (forall i :: 0 <= i < |init| ==> Subset.SupportedStmt(init[i])) && Subset.SupportedStmt(last)
      by {
        assert forall i :: 0 <= i < |init| ==> init[i] == ss[i];
        assert ss[|ss| - 1] == last;
      }
    }
  }

  lemma {:induction false} StmtAccepted(st: Stmt)
    requires Subset.MacFreeStmt(st)
    ensures !StmtOutput(st).fault
    ensures StmtOutput(st).diags == [] <==> Subset.SupportedStmt(st)
    decreases st, 1
  {
    match st
    case LocalStmt(l) =>
      LetAccepted(l);
    case ItemStmt(_) =>
    case ExprStmt(x) =>
      ExprAccepted(x);
    case Semi(x) =>
      ExprAccepted(x);
  }

  lemma {:induction false} LetAccepted(l: Local)
    requires l.init.Some? ==> Subset.MacFreeExpr(l.init.value)
    ensures !LetOutput(l).fault
    ensures LetOutput(l).diags == [] <==> Subset.SupportedStmt(LocalStmt(l))
    decreases l, 1
  {
    if l.ty.Some? {
      Types.TyCleanIff(l.ty.value);
    }
    if l.init.Some? {
      ExprAccepted(l.init.value);
    }
  }
}
