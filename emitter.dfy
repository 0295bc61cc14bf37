/** The expression and block translators as the source runs them: recursive
    procedures appending to the session's buffer piece by piece and recording
    diagnostics as they go (src/expr.rs, src/block.rs). Each is proved to
    append exactly what its specification function in CodeGen describes. */
module Emitter {
  import opened Ast
  import opened Writer
  import opened CodeGen
  import Names
  import Types
  import Text

  method GetBinop(s: Session, op: BinOp) returns (glsl: string)
    requires !s.fault
    modifies s
    ensures glsl == BinopOutput(op).text
    ensures s.State() == old(s.State()).Then(Output("", BinopOutput(op).diags, false))
  {
    match op {
      case Add => glsl := "+";
      case Sub => glsl := "-";
      case Mul => glsl := "*";
      case Div => glsl := "/";
      case And => glsl := "&&";
      case Or => glsl := "||";
      case Eq => glsl := "==";
      case Lt => glsl := "<";
      case Le => glsl := "<=";
      case Ne => glsl := "!=";
      case Ge => glsl := ">=";
      case Gt => glsl := ">";
      case _ =>
        s.SpanErr("binary operator not supported");
        glsl := "";
    }
  }

  method GetUnop(s: Session, op: UnOp) returns (glsl: string)
    requires !s.fault
    modifies s
    ensures glsl == UnopOutput(op).text
    ensures s.State() == old(s.State()).Then(Output("", UnopOutput(op).diags, false))
  {
    match op {
      case Not => glsl := "!";
      case Neg => glsl := "-";
      case _ =>
        s.SpanErr("unary operator not supported");
        glsl := "";
    }
  }

  /** `expr::translate`. The arms that recurse are in the methods below, one
      per arm, so that each is proved on its own. */
  method TranslateExpr(s: Session, e: Expr)
    requires !s.fault
    modifies s
    ensures s.State() == old(s.State()).Then(ExprOutput(e))
    decreases e, 1
  {
    match e {
      case LitExpr(l) =>
        match l {
          case Int(n) => s.Write(Text.DecimalText(n));
          case Float(f) => s.Write(f);
          case FloatUnsuffixed(f) => s.Write(f);
          case _ => s.SpanErr("can't translate this literal");
        }

      case PathExpr(_, p) =>
        match Names.SimplePath(p) {
          case Some(name) =>
            var glsl := if name == "mod_" then "mod" else name;
            s.Write(glsl);
          case None =>
            s.SpanErr("can't translate qualified / parametrized name");
            return;
        }

      case Binary(_, _, _) => TranslateBinary(s, e);
      case Unary(_, _) => TranslateUnary(s, e);
      case If(_, _, _) => TranslateIf(s, e);
      case Assign(_, _) => TranslateAssign(s, e);
      case Ret(_) => TranslateRet(s, e);
      case Call(_, _) => TranslateCall(s, e);

      case Field(_, _) => TranslateField(s, e);

      case Paren(inside) =>
        TranslateExpr(s, inside);

      case BlockExpr(_) => TranslateBraced(s, e);

      case MacExpr =>
        s.SpanBug();

      case OtherExpr =>
        s.SpanErr("can't translate this sort of expression");
    }
  }

  /** `lhs.name`. */
  method TranslateField(s: Session, e: Expr)
    requires e.Field? && !s.fault
    modifies s
    ensures s.State() == old(s.State()).Then(ExprOutput(e))
    decreases e, 0
  {
    TranslateExpr(s, e.base);
    if s.fault { return; }
    s.Write("." + e.member);
  }

  /** A block expression between braces. */
  method TranslateBraced(s: Session, e: Expr)
    requires e.BlockExpr? && !s.fault
    modifies s
    ensures s.State() == old(s.State()).Then(ExprOutput(e))
    decreases e, 0
  {
    ghost var s0 := s.State();
    s.Write("{\n");
    TranslateBlock(s, e.block, false);
    ThenAssoc(s0, Emit("{\n"), BlockOutput(e.block));
    if s.fault { return; }
    s.Write("}\n");
    ThenAssoc(s0, Emit("{\n").Then(BlockOutput(e.block)), Emit("}\n"));
  }

  /** `(lhs op rhs)`; the operator is looked up between the two operands. */
  method TranslateBinary(s: Session, e: Expr)
    requires e.Binary? && !s.fault
    modifies s
    ensures s.State() == old(s.State()).Then(ExprOutput(e))
    decreases e, 0
  {
    ghost var s0 := s.State();
    ghost var o := BinopOutput(e.binop);
    ghost var L, O, R := ExprOutput(e.lhs), Output(" " + o.text + " ", o.diags, false), ExprOutput(e.rhs);
    ThenAssoc5(s0, Emit("("), L, O, R, Emit(")"));
    s.Write("(");
    TranslateExpr(s, e.lhs);
    if s.fault { return; }
    WriteBinop(s, e.binop);
    TranslateExpr(s, e.rhs);
    if s.fault { return; }
    s.Write(")");
  }

  /** The operator `get_binop` looks up, written between two spaces. */
  method WriteBinop(s: Session, op: BinOp)
    requires !s.fault
    modifies s
    ensures s.State() == old(s.State()).Then(Output(" " + BinopOutput(op).text + " ", BinopOutput(op).diags, false))
  {
    ghost var s1 := s.State();
    var glsl := GetBinop(s, op);
    assert s.out == s1.text;
    s.Write(" " + glsl + " ");
  }

  /** `(op rhs)`. */
  method TranslateUnary(s: Session, e: Expr)
    requires e.Unary? && !s.fault
    modifies s
    ensures s.State() == old(s.State()).Then(ExprOutput(e))
    decreases e, 0
  {
    ghost var s0 := s.State();
    ghost var o := UnopOutput(e.unop);
    var op := GetUnop(s, e.unop);
    s.Write("(" + op + " ");
    ghost var acc := Output("(" + o.text + " ", o.diags, false);
    assert s.State() == s0.Then(acc);
    TranslateExpr(s, e.operand);
    ThenAssoc(s0, acc, ExprOutput(e.operand));
    acc := acc.Then(ExprOutput(e.operand));
    if s.fault { return; }
    s.Write(")");
    ThenAssoc(s0, acc, Emit(")"));
  }

  /** `if (cond) {` block `}`, then either a newline or `else` and the else arm. */
  method TranslateIf(s: Session, e: Expr)
    requires e.If? && !s.fault
    modifies s
    ensures s.State() == old(s.State()).Then(ExprOutput(e))
    decreases e, 0
  {
    ghost var s0 := s.State();
    s.Write("if (");
    ghost var acc := Emit("if (");
    TranslateExpr(s, e.cond);
    ThenAssoc(s0, acc, ExprOutput(e.cond));
    acc := acc.Then(ExprOutput(e.cond));
    if s.fault { return; }
    s.Write(") {\n");
    ThenAssoc(s0, acc, Emit(") {\n"));
    acc := acc.Then(Emit(") {\n"));
    TranslateBlock(s, e.thn, false);
    ThenAssoc(s0, acc, BlockOutput(e.thn));
    acc := acc.Then(BlockOutput(e.thn));
    if s.fault { return; }
    ghost var s1 := s.State();
    if e.els.Some? {
      s.Write("}\nelse ");
      TranslateExpr(s, e.els.value);
      ThenAssoc(s1, Emit("}\nelse "), ExprOutput(e.els.value));
    } else {
      s.Write("}\n");
    }
    ThenAssoc(s0, acc, if e.els.Some? then Emit("}\nelse ").Then(ExprOutput(e.els.value)) else Emit("}\n"));
  }

  /** `(lhs = rhs)`. */
  method TranslateAssign(s: Session, e: Expr)
    requires e.Assign? && !s.fault
    modifies s
    ensures s.State() == old(s.State()).Then(ExprOutput(e))
    decreases e, 0
  {
    ghost var s0 := s.State();
    s.Write("(");
    ghost var acc := Emit("(");
    TranslateExpr(s, e.lhs);
    ThenAssoc(s0, acc, ExprOutput(e.lhs));
    acc := acc.Then(ExprOutput(e.lhs));
    if s.fault { return; }
    s.Write(" = ");
    ThenAssoc(s0, acc, Emit(" = "));
    acc := acc.Then(Emit(" = "));
    TranslateExpr(s, e.rhs);
    ThenAssoc(s0, acc, ExprOutput(e.rhs));
    acc := acc.Then(ExprOutput(e.rhs));
    if s.fault { return; }
    s.Write(")");
    ThenAssoc(s0, acc, Emit(")"));
  }

  /** `return`, then a space and the value if there is one, then `;`. */
  method TranslateRet(s: Session, e: Expr)
    requires e.Ret? && !s.fault
    modifies s
    ensures s.State() == old(s.State()).Then(ExprOutput(e))
    decreases e, 0
  {
    ghost var s0 := s.State();
    s.Write("return");
    ghost var acc := Emit("return");
    ghost var val := if e.value.Some? then Emit(" ").Then(ExprOutput(e.value.value)) else Nothing;
    if e.value.Some? {
      ghost var s1 := s.State();
      s.Write(" ");
      TranslateExpr(s, e.value.value);
      ThenAssoc(s1, Emit(" "), ExprOutput(e.value.value));
      ThenAssoc(s0, acc, val);
      if s.fault { return; }
    } else {
      ThenAssoc(s0, acc, val);
    }
    acc := acc.Then(val);
    s.Write(";\n");
    ThenAssoc(s0, acc, Emit(";\n"));
  }

  /** `callee(args)`. */
  method TranslateCall(s: Session, e: Expr)
    requires e.Call? && !s.fault
    modifies s
    ensures s.State() == old(s.State()).Then(ExprOutput(e))
    decreases e, 0
  {
    ghost var s0 := s.State();
    ghost var F, A := ExprOutput(e.callee), ArgsOutput(e.args);
    assert ExprOutput(e) == F.Then(Emit("(")).Then(A).Then(Emit(")"));
    TranslateExpr(s, e.callee);
    if s.fault { return; }
    s.Write("(");
    ThenAssoc(s0, F, Emit("("));
    TranslateArgs(s, e.args);
    ThenAssoc(s0, F.Then(Emit("(")), A);
    if s.fault { return; }
    s.Write(")");
    ThenAssoc(s0, F.Then(Emit("(")).Then(A), Emit(")"));
  }

  /** The argument loop of the `Call` arm: a separator before every argument
      but the first, and nothing more once an argument faults. */
  method TranslateArgs(s: Session, args: seq<Expr>)
    requires !s.fault
    modifies s
    ensures s.State() == old(s.State()).Then(ArgsOutput(args))
    decreases args, 1
  {
    ghost var s0 := s.State();
    var i := 0;
    while i < |args|
      invariant 0 <= i <= |args|
      invariant !s.fault
      invariant s.State() == s0.Then(ArgsOutput(args[..i]))
    {
      TranslateArg(s, args, i);
      ArgStep(s0, args, i);
      if s.fault {
        ArgsFaultStops(args, i + 1);
        return;
      }
      i := i + 1;
    }
    assert args[..i] == args;
  }

  /** One turn of the argument loop. */
  method TranslateArg(s: Session, args: seq<Expr>, i: nat)
    requires i < |args| && !s.fault
    modifies s
    ensures s.State() == old(s.State()).Then(Emit(if i == 0 then "" else ", ")).Then(ExprOutput(args[i]))
    decreases args, 0
  {
    if i != 0 {
      s.Write(", ");
    }
    assert s.State() == old(s.State()).Then(Emit(if i == 0 then "" else ", "));
    assert args[i] in args;
    TranslateExpr(s, args[i]);
  }

  /** One more argument: its separator, then its text. */
  lemma ArgStep(s0: Output, args: seq<Expr>, i: nat)
    requires i < |args|
    ensures s0.Then(ArgsOutput(args[..i + 1])) ==
      s0.Then(ArgsOutput(args[..i])).Then(Emit(if i == 0 then "" else ", ")).Then(ExprOutput(args[i]))
  {
    var sep := Emit(if i == 0 then "" else ", ");
    assert args[..i + 1][..i] == args[..i];
    ThenAssoc(s0, ArgsOutput(args[..i]), sep);
    ThenAssoc(s0, ArgsOutput(args[..i]).Then(sep), ExprOutput(args[i]));
  }

  /** `block::translate`: the statements in order. `allowReturn` is threaded
      through but read nowhere, as in the source. */
  method TranslateBlock(s: Session, b: Block, allowReturn: bool)
    requires !s.fault
    modifies s
    ensures s.State() == old(s.State()).Then(BlockOutput(b))
    decreases b
  {
    var i := 0;
    while i < |b.stmts|
      invariant 0 <= i <= |b.stmts|
      invariant !s.fault
      invariant s.State() == old(s.State()).Then(StmtsOutput(b.stmts[..i]))
    {
      assert b.stmts[i] in b.stmts;
      TranslateStmt(s, b.stmts[i]);
      assert b.stmts[..i + 1][..i] == b.stmts[..i];
      ThenAssoc(old(s.State()), StmtsOutput(b.stmts[..i]), StmtOutput(b.stmts[i]));
      if s.fault {
        StmtsFaultStops(b.stmts, i + 1);
        return;
      }
      i := i + 1;
    }
    assert b.stmts[..i] == b.stmts;
  }

  /** The `match st.node` of the statement loop. */
  method TranslateStmt(s: Session, st: Stmt)
    requires !s.fault
    modifies s
    ensures s.State() == old(s.State()).Then(StmtOutput(st))
    decreases st
  {
    match st {
      case LocalStmt(loc) =>
        TranslateLet(s, loc);
      case ItemStmt(_) =>
        s.SpanErr("items in functions not supported");
      case ExprStmt(expr) =>
        TranslateExpr(s, expr);
        if !s.fault {
          ThenAssoc(old(s.State()), ExprOutput(expr), Emit(";\n"));
          s.Write(";\n");
        }
      case Semi(expr) =>
        TranslateExpr(s, expr);
        if !s.fault {
          ThenAssoc(old(s.State()), ExprOutput(expr), Emit(";\n"));
          s.Write(";\n");
        }
      case MacStmt =>
        s.SpanBug();
    }
  }

  /** `translate_let`: stops at the first refusal. */
  method TranslateLet(s: Session, loc: Local)
    requires !s.fault
    modifies s
    ensures s.State() == old(s.State()).Then(LetOutput(loc))
    decreases loc
  {
    var name: Ident;
    match Names.PatToVar(loc.pat) {
      case Some(n) =>
        name := n;
      case None =>
        s.SpanErr("`let` binding must be a variable");
        return;
    }
    var ty: Ty;
    match loc.ty {
      case Some(t) =>
        ty := t;
      case None =>
        s.SpanErr("`let` bindings must specify a type");
        return;
    }
    ghost var s0 := s.State();
    Types.TranslateTy(s, ty);
    s.Write(" " + name);
    ThenAssoc(s0, Types.TyOutput(ty), Emit(" " + name));
    ghost var acc := Types.TyOutput(ty).Then(Emit(" " + name));
    ghost var init := if loc.init.Some? then Emit(" = ").Then(ExprOutput(loc.init.value)) else Nothing;
    if loc.init.Some? {
      ghost var s1 := s.State();
      s.Write(" = ");
      TranslateExpr(s, loc.init.value);
      ThenAssoc(s1, Emit(" = "), ExprOutput(loc.init.value));
      ThenAssoc(s0, acc, init);
      if s.fault { return; }
    } else {
      ThenAssoc(s0, acc, init);
    }
    acc := acc.Then(init);
    s.Write(";\n");
    ThenAssoc(s0, acc, Emit(";\n"));
  }
}
