/** The parentheses the expression and block translators print nest
    properly, and every binary, unary and assignment expression is printed as
    one parenthesised group, so the grouping of the Rust tree is kept in the
    GLSL text whatever GLSL's own precedence rules are. */
module Nesting {
  import opened Ast
  import opened Writer
  import opened CodeGen
  import Names
  import Types
  import Text

  /** Either the translation faulted, or the text it printed is balanced. */
  ghost predicate WellNested(o: Output) {
    o.fault || Text.Balanced(o.text)
  }

  lemma IdentParenFree(n: Ident)
    ensures Text.ParenFree(n)
  {
    forall i | 0 <= i < |n| ensures n[i] != '(' && n[i] != ')' {
      assert IdentChar(n[i]);
    }
  }

  lemma ParenFreeWellNested(o: Output)
    requires Text.ParenFree(o.text)
    ensures WellNested(o)
  {
    Text.ParenFreeBalanced(o.text);
  }

  lemma ThenWellNested(a: Output, b: Output)
    requires WellNested(a) && WellNested(b)
    ensures WellNested(a.Then(b))
  {
    if !a.fault && !b.fault {
      Text.BalancedConcat(a.text, b.text);
    }
  }

  lemma ChainWellNested(a: Output, b: Output, c: Output)
    requires WellNested(a) && WellNested(b) && WellNested(c)
    ensures WellNested(a.Then(b).Then(c))
  {
    ThenWellNested(a, b);
    ThenWellNested(a.Then(b), c);
  }

  /** `"(" + inner + ")"` is one group when `inner` is balanced. */
  lemma Parenthesize(inner: Output)
    requires WellNested(inner)
    ensures var w := Emit("(").Then(inner).Then(Emit(")"));
      !w.fault ==> Text.Grouped(w.text) && w.text == "(" + inner.text + ")"
  {
    if !inner.fault {
      Text.Wrap(inner.text);
    }
  }

  /** Every parenthesis the expression translator prints is matched. */
  lemma {:induction false} ExprWellNested(e: Expr)
    ensures WellNested(ExprOutput(e))
    decreases e, 1
  {
    match e
    case LitExpr(l) =>
      ParenFreeWellNested(LitOutput(l));
    case PathExpr(_, p) =>
      if Names.SimplePath(p).Some? {
        IdentParenFree(Unescape(Names.SimplePath(p).value));
      }
      ParenFreeWellNested(PathOutput(p));
    case Binary(op, l, r) =>
      BinaryGrouped(op, l, r);
      if !ExprOutput(e).fault {
        Text.GroupedBalanced(ExprOutput(e).text);
      }
    case Unary(op, x) =>
      UnaryGrouped(op, x);
      if !ExprOutput(e).fault {
        Text.GroupedBalanced(ExprOutput(e).text);
      }
    case Assign(l, r) =>
      AssignGrouped(l, r);
      if !ExprOutput(e).fault {
        Text.GroupedBalanced(ExprOutput(e).text);
      }
    case If(c, thn, els) =>
      IfWellNested(c, thn, els);
    case Ret(v) =>
      RetWellNested(v);
    case Call(f, args) =>
      CallWellNested(f, args);
    case Field(b, m) =>
      ExprWellNested(b);
      IdentParenFree(m);
      ParenFreeWellNested(Emit("." + m));
      ThenWellNested(ExprOutput(b), Emit("." + m));
    case Paren(x) =>
      ExprWellNested(x);
    case BlockExpr(b) =>
      BracedWellNested(b);
    case MacExpr =>
    case OtherExpr =>
      ParenFreeWellNested(ExprOutput(e));
  }

  lemma {:induction false} RetWellNested(v: Option<Expr>)
    ensures WellNested(ExprOutput(Ret(v)))
    decreases Ret(v), 0
  {
    ParenFreeWellNested(Emit("return"));
    ParenFreeWellNested(Emit(";\n"));
    if v.Some? {
      ExprWellNested(v.value);
      ParenFreeWellNested(Emit(" "));
      ThenWellNested(Emit(" "), ExprOutput(v.value));
      ChainWellNested(Emit("return"), Emit(" ").Then(ExprOutput(v.value)), Emit(";\n"));
    } else {
      ParenFreeWellNested(Nothing);
      ChainWellNested(Emit("return"), Nothing, Emit(";\n"));
    }
  }

  lemma {:induction false} BracedWellNested(b: Block)
    ensures WellNested(ExprOutput(BlockExpr(b)))
    decreases BlockExpr(b), 0
  {
    BlockWellNested(b);
    ParenFreeWellNested(Emit("{\n"));
    ParenFreeWellNested(Emit("}\n"));
    ThenWellNested(Emit("{\n"), BlockOutput(b));
    ThenWellNested(Emit("{\n").Then(BlockOutput(b)), Emit("}\n"));
  }

  /** A binary expression is printed fully parenthesised, `(L op R)`, as a
      single group, so the tree's grouping survives whatever GLSL's
      precedence rules are. */
  lemma {:induction false} BinaryGrouped(op: BinOp, l: Expr, r: Expr)
    ensures var out := ExprOutput(Binary(op, l, r));
      !out.fault ==>
        out.text == "(" + ExprOutput(l).text + " " + BinopOutput(op).text + " " + ExprOutput(r).text + ")" &&
        Text.Grouped(out.text)
    decreases Binary(op, l, r), 0
  {
    var L, o, R := ExprOutput(l), BinopOutput(op), ExprOutput(r);
    assert ExprOutput(Binary(op, l, r)) ==
      Emit("(").Then(L).Then(Output(" " + o.text + " ", o.diags, false)).Then(R).Then(Emit(")"));
    ExprWellNested(l);
    ExprWellNested(r);
    Infix(L, o, R);
  }

  /** `(L op R)` from its three parts. */
  lemma Infix(L: Output, o: Output, R: Output)
    requires WellNested(L) && WellNested(R) && Text.ParenFree(o.text)
    ensures var out := Emit("(").Then(L).Then(Output(" " + o.text + " ", o.diags, false)).Then(R).Then(Emit(")"));
      !out.fault ==>
        out.text == "(" + L.text + " " + o.text + " " + R.text + ")" && Text.Grouped(out.text)
  {
    var O := Output(" " + o.text + " ", o.diags, false);
    ParenFreeWellNested(O);
    GroupOfThree(L, O, R);
    Text.ConcatAssoc("(" + L.text, " " + o.text, " ");
    Text.ConcatAssoc("(" + L.text, " ", o.text);
    ThenAssoc(Emit("("), L, O);
    ThenAssoc(Emit("("), L.Then(O), R);
  }

  lemma GroupOfThree(a: Output, b: Output, c: Output)
    requires WellNested(a) && WellNested(b) && WellNested(c)
    ensures var out := Emit("(").Then(a.Then(b).Then(c)).Then(Emit(")"));
      !out.fault ==> out.text == "(" + a.text + b.text + c.text + ")" && Text.Grouped(out.text)
  {
    var m := a.Then(b).Then(c);
    assert !m.fault ==> m.text == a.text + b.text + c.text;
    ThenWellNested(a, b);
    ThenWellNested(a.Then(b), c);
    Parenthesize(m);
  }

  /** A unary expression is printed `(op X)`, as a single group. */
  lemma {:induction false} UnaryGrouped(op: UnOp, x: Expr)
    ensures var out := ExprOutput(Unary(op, x));
      !out.fault ==>
        out.text == "(" + UnopOutput(op).text + " " + ExprOutput(x).text + ")" &&
        Text.Grouped(out.text)
    decreases Unary(op, x), 0
  {
    var o, X := UnopOutput(op), ExprOutput(x);
    assert ExprOutput(Unary(op, x)) == Output("(" + o.text + " ", o.diags, false).Then(X).Then(Emit(")"));
    ExprWellNested(x);
    Prefix(op, X);
  }

  /** `(op X)` from its two parts. */
  lemma Prefix(op: UnOp, X: Output)
    requires WellNested(X)
    ensures var o := UnopOutput(op);
      var out := Output("(" + o.text + " ", o.diags, false).Then(X).Then(Emit(")"));
      !out.fault ==> out.text == "(" + o.text + " " + X.text + ")" && Text.Grouped(out.text)
  {
    var o := UnopOutput(op);
    var O := Output(o.text + " ", o.diags, false);
    assert Text.ParenFree(O.text);
    ParenFreeWellNested(O);
    ThenWellNested(O, X);
    Parenthesize(O.Then(X));
    assert Output("(" + o.text + " ", o.diags, false) == Emit("(").Then(O);
    ThenAssoc(Emit("("), O, X);
  }

  /** An assignment is printed `(L = R)`, as a single group. */
  lemma {:induction false} AssignGrouped(l: Expr, r: Expr)
    ensures var out := ExprOutput(Assign(l, r));
      !out.fault ==>
        out.text == "(" + ExprOutput(l).text + " = " + ExprOutput(r).text + ")" &&
        Text.Grouped(out.text)
    decreases Assign(l, r), 0
  {
    var L, R := ExprOutput(l), ExprOutput(r);
    assert ExprOutput(Assign(l, r)) == Emit("(").Then(L).Then(Emit(" = ")).Then(R).Then(Emit(")"));
    ExprWellNested(l);
    ExprWellNested(r);
    Equation(L, R);
  }

  /** `(L = R)` from its two sides. */
  lemma Equation(L: Output, R: Output)
    requires WellNested(L) && WellNested(R)
    ensures var out := Emit("(").Then(L).Then(Emit(" = ")).Then(R).Then(Emit(")"));
      !out.fault ==> out.text == "(" + L.text + " = " + R.text + ")" && Text.Grouped(out.text)
  {
    ParenFreeWellNested(Emit(" = "));
    Triple(L, Emit(" = "), R);
  }

  /** `(ABC)` is one group when its three parts are balanced. */
  lemma Triple(a: Output, b: Output, c: Output)
    requires WellNested(a) && WellNested(b) && WellNested(c)
    ensures var out := Emit("(").Then(a).Then(b).Then(c).Then(Emit(")"));
      !out.fault ==> out.text == "(" + a.text + b.text + c.text + ")" && Text.Grouped(out.text)
  {
    GroupOfThree(a, b, c);
    ThenAssoc(Emit("("), a, b);
    ThenAssoc(Emit("("), a.Then(b), c);
  }

  lemma {:induction false} IfWellNested(c: Expr, thn: Block, els: Option<Expr>)
    ensures WellNested(ExprOutput(If(c, thn, els)))
    decreases If(c, thn, els), 0
  {
    var T := if els.Some? then Emit("}\nelse ").Then(ExprOutput(els.value)) else Emit("}\n");
    assert ExprOutput(If(c, thn, els)) ==
      Emit("if (").Then(ExprOutput(c)).Then(Emit(") {\n")).Then(BlockOutput(thn)).Then(T);
    ExprWellNested(c);
    BlockWellNested(thn);
    ElseWellNested(els);
    IfParts(ExprOutput(c), BlockOutput(thn), T);
  }

  /** What follows the `then` block: `}` and the `else` branch, if any. */
  lemma {:induction false} ElseWellNested(els: Option<Expr>)
    ensures WellNested(if els.Some? then Emit("}\nelse ").Then(ExprOutput(els.value)) else Emit("}\n"))
    decreases els, 2
  {
    if els.Some? {
      ExprWellNested(els.value);
      ParenFreeWellNested(Emit("}\nelse "));
      ThenWellNested(Emit("}\nelse "), ExprOutput(els.value));
    } else {
      ParenFreeWellNested(Emit("}\n"));
    }
  }

  /** `if (C) {` B T is balanced when C, B and T are. */
  lemma IfParts(C: Output, B: Output, T: Output)
    requires WellNested(C) && WellNested(B) && WellNested(T)
    ensures WellNested(Emit("if (").Then(C).Then(Emit(") {\n")).Then(B).Then(T))
  {
    IfHeadWellNested(C);
    ChainWellNested(Emit("if (").Then(C).Then(Emit(") {\n")), B, T);
  }

  lemma IfHeadWellNested(C: Output)
    requires WellNested(C)
    ensures WellNested(Emit("if (").Then(C).Then(Emit(") {\n")))
  {
    GroupWellNested(C);
    IfWords();
    ChainWellNested(Emit("if "), Emit("(").Then(C).Then(Emit(")")), Emit(" {\n"));
    IfHead(C);
  }

  /** `(C)` is balanced when C is. */
  lemma GroupWellNested(C: Output)
    requires WellNested(C)
    ensures WellNested(Emit("(").Then(C).Then(Emit(")")))
  {
    Parenthesize(C);
    if !C.fault {
      Text.GroupedBalanced("(" + C.text + ")");
    }
  }

  lemma IfWords()
    ensures WellNested(Emit("if ")) && WellNested(Emit(" {\n"))
  {
    ParenFreeWellNested(Emit("if "));
    ParenFreeWellNested(Emit(" {\n"));
  }

  /** `if (C) {` is the group `(C)` between two parenthesis-free words. */
  lemma IfHead(C: Output)
    ensures Emit("if (").Then(C).Then(Emit(") {\n")) ==
      Emit("if ").Then(Emit("(").Then(C).Then(Emit(")"))).Then(Emit(" {\n"))
  {
    assert "if (" == "if " + "(";
    assert ") {\n" == ")" + " {\n";
    Text.ConcatAssoc("if ", "(", C.text);
    if !C.fault {
      Text.ConcatAssoc("if " + "(" + C.text, ")", " {\n");
      Text.ConcatAssoc("if ", "(" + C.text, ")");
    }
  }

  lemma {:induction false} CallWellNested(f: Expr, args: seq<Expr>)
    ensures WellNested(ExprOutput(Call(f, args)))
    decreases Call(f, args), 0
  {
    var F, A := ExprOutput(f), ArgsOutput(args);
    assert ExprOutput(Call(f, args)) == F.Then(Emit("(")).Then(A).Then(Emit(")"));
    ExprWellNested(f);
    ArgsWellNested(args);
    CallParts(F, A);
  }

  /** `F(A)` is balanced when F and A are. */
  lemma CallParts(F: Output, A: Output)
    requires WellNested(F) && WellNested(A)
    ensures WellNested(F.Then(Emit("(")).Then(A).Then(Emit(")")))
  {
    var out := F.Then(Emit("(")).Then(A).Then(Emit(")"));
    if !out.fault {
      var g := "(" + A.text + ")";
      Text.Wrap(A.text);
      Text.GroupedBalanced(g);
      assert out.text == F.text + g;
      Text.BalancedConcat(F.text, g);
    }
  }

  lemma {:induction false} ArgsWellNested(args: seq<Expr>)
    ensures WellNested(ArgsOutput(args))
    decreases args, 1
  {
    if |args| == 0 {
      ParenFreeWellNested(Nothing);
    } else {
      var sep := Emit(if |args| == 1 then "" else ", ");
      ArgsWellNested(args[..|args| - 1]);
      ExprWellNested(args[|args| - 1]);
      ParenFreeWellNested(sep);
      ThenWellNested(ArgsOutput(args[..|args| - 1]), sep);
      ThenWellNested(ArgsOutput(args[..|args| - 1]).Then(sep), ExprOutput(args[|args| - 1]));
    }
  }

  lemma {:induction false} BlockWellNested(b: Block)
    ensures WellNested(BlockOutput(b))
    decreases b, 1
  {
    StmtsWellNested(b.stmts);
  }

  lemma {:induction false} StmtsWellNested(ss: seq<Stmt>)
    ensures WellNested(StmtsOutput(ss))
    decreases ss, 1
  {
    if |ss| == 0 {
      ParenFreeWellNested(Nothing);
    } else {
      StmtsWellNested(ss[..|ss| - 1]);
      StmtWellNested(ss[|ss| - 1]);
      ThenWellNested(StmtsOutput(ss[..|ss| - 1]), StmtOutput(ss[|ss| - 1]));
    }
  }

  lemma {:induction false} StmtWellNested(st: Stmt)
    ensures WellNested(StmtOutput(st))
    decreases st, 1
  {
    match st
    case LocalStmt(l) =>
      LetWellNested(l);
    case ItemStmt(_) =>
      ParenFreeWellNested(StmtOutput(st));
    case ExprStmt(x) =>
      ExprWellNested(x);
      ParenFreeWellNested(Emit(";\n"));
      ThenWellNested(ExprOutput(x), Emit(";\n"));
    case Semi(x) =>
      ExprWellNested(x);
      ParenFreeWellNested(Emit(";\n"));
      ThenWellNested(ExprOutput(x), Emit(";\n"));
    case MacStmt =>
  }

  lemma {:induction false} LetWellNested(l: Local)
    ensures WellNested(LetOutput(l))
    decreases l, 1
  {
    match Names.PatToVar(l.pat)
    case None =>
      ParenFreeWellNested(LetOutput(l));
    case Some(name) =>
      match l.ty
      case None =>
        ParenFreeWellNested(LetOutput(l));
      case Some(t) =>
        var head := Types.TyOutput(t).Then(Emit(" " + name));
        var init := if l.init.Some? then Emit(" = ").Then(ExprOutput(l.init.value)) else Nothing;
        IdentParenFree(name);
        assert Text.ParenFree(head.text);
        ParenFreeWellNested(head);
        if l.init.Some? {
          ExprWellNested(l.init.value);
          ParenFreeWellNested(Emit(" = "));
          ThenWellNested(Emit(" = "), ExprOutput(l.init.value));
        } else {
          ParenFreeWellNested(Nothing);
        }
        ParenFreeWellNested(Emit(";\n"));
        ThenWellNested(head, init);
        ThenWellNested(head.Then(init), Emit(";\n"));
  }
}
