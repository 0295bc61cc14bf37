/** The shape of what the expression and block translators print: calls
    separate their arguments by commas, blocks are their statements one
    after the other, a `let` is printed as a C declaration or refused
    before anything is printed, an unsupported operator still has its
    operands translated, and parentheses in the Rust tree leave no trace. */
module Layout {
  import opened Ast
  import opened Writer
  import opened CodeGen
  import Types
  import Subset
  import Text

  /** The texts of the arguments, in order. */
  function ArgTexts(args: seq<Expr>): seq<string> {
    if |args| == 0 then [] else ArgTexts(args[..|args| - 1]) + [ExprOutput(args[|args| - 1]).text]
  }

  /** The arguments fault exactly when one of them does; otherwise their
      texts are joined by `", "`, with no separator before the first or
      after the last. */
  lemma {:induction false} ArgsJoined(args: seq<Expr>)
    ensures !ArgsOutput(args).fault <==> forall i :: 0 <= i < |args| ==> !ExprOutput(args[i]).fault
    ensures !ArgsOutput(args).fault ==> ArgsOutput(args).text == Text.Join(ArgTexts(args), ", ")
    decreases args
  {
    if |args| > 0 {
      var init, last := args[..|args| - 1], args[|args| - 1];
      ArgsJoined(init);
      var O, S, X := ArgsOutput(init), Emit(if |args| == 1 then "" else ", "), ExprOutput(last);
      assert ArgsOutput(args) == O.Then(S).Then(X);
      assert ArgTexts(args) == ArgTexts(init) + [X.text];
      SnocStep(O, S, X);
      SnocFaults(args, init, last);
      if !ArgsOutput(args).fault && |init| > 0 {
        Text.JoinSnoc(ArgTexts(init), X.text, ", ");
      }
    }
  }

  /** A step after a separator faults exactly when the step before it or
      the step itself does, and otherwise prints after the separator. */
  lemma SnocStep(O: Output, S: Output, X: Output)
    requires !S.fault
    ensures O.Then(S).Then(X).fault <==> O.fault || X.fault
    ensures !O.Then(S).Then(X).fault ==> O.Then(S).Then(X).text == O.text + S.text + X.text
  {
  }

  lemma SnocFaults(args: seq<Expr>, init: seq<Expr>, last: Expr)
    requires args == init + [last]
    ensures (forall i :: 0 <= i < |args| ==> !ExprOutput(args[i]).fault) <==>
            (forall i :: 0 <= i < |init| ==> !ExprOutput(init[i]).fault) && !ExprOutput(last).fault
  {
    assert forall i :: 0 <= i < |init| ==> args[i] == init[i];
    assert args[|init|] == last;
  }

  /** A call prints its callee, then its arguments joined by `", "` in
      parentheses; with no argument that is `f()`. */
  lemma CallPrinted(f: Expr, args: seq<Expr>)
    requires !ExprOutput(Call(f, args)).fault
    ensures ExprOutput(Call(f, args)).text ==
      ExprOutput(f).text + "(" + Text.Join(ArgTexts(args), ", ") + ")"
    ensures args == [] ==> ExprOutput(Call(f, args)).text == ExprOutput(f).text + "()"
  {
    ArgsJoined(args);
  }

  /** Translating two runs of statements one after the other is translating
      the run they make together. */
  lemma {:induction false} StmtsConcat(a: seq<Stmt>, b: seq<Stmt>)
    ensures StmtsOutput(a + b) == StmtsOutput(a).Then(StmtsOutput(b))
    decreases |b|
  {
    if |b| == 0 {
      assert a + b == a;
    } else {
      var init, last := b[..|b| - 1], b[|b| - 1];
      assert (a + b)[..|a + b| - 1] == a + init;
      assert (a + b)[|a + b| - 1] == last;
      StmtsConcat(a, init);
      ThenAssoc(StmtsOutput(a), StmtsOutput(init), StmtOutput(last));
    }
  }

  /** The texts of the statements, in order. */
  function StmtTexts(ss: seq<Stmt>): seq<string> {
    if |ss| == 0 then [] else StmtTexts(ss[..|ss| - 1]) + [StmtOutput(ss[|ss| - 1]).text]
  }

  /** A block faults exactly when one of its statements does; otherwise it
      prints its statements' texts one after the other, with nothing between
      or around them. */
  lemma {:induction false} BlockIsItsStatements(b: Block)
    ensures !BlockOutput(b).fault <==> forall i :: 0 <= i < |b.stmts| ==> !StmtOutput(b.stmts[i]).fault
    ensures !BlockOutput(b).fault ==> BlockOutput(b).text == Text.Join(StmtTexts(b.stmts), "")
    decreases |b.stmts|
  {
    if |b.stmts| > 0 {
      var init, last := b.stmts[..|b.stmts| - 1], b.stmts[|b.stmts| - 1];
      BlockIsItsStatements(Block(init));
      var O, X := StmtsOutput(init), StmtOutput(last);
      StmtsSnoc(b.stmts);
      assert StmtTexts(b.stmts) == StmtTexts(init) + [X.text];
      StmtSnocFaults(b.stmts, init, last);
      if !BlockOutput(b).fault && |init| > 0 {
        Text.JoinSnoc(StmtTexts(init), X.text, "");
      }
    }
  }

  lemma StmtsSnoc(ss: seq<Stmt>)
    requires |ss| > 0
    ensures BlockOutput(Block(ss)) == StmtsOutput(ss[..|ss| - 1]).Then(StmtOutput(ss[|ss| - 1]))
  {
  }

  lemma StmtSnocFaults(ss: seq<Stmt>, init: seq<Stmt>, last: Stmt)
    requires ss == init + [last]
    ensures (forall i :: 0 <= i < |ss| ==> !StmtOutput(ss[i]).fault) <==>
            (forall i :: 0 <= i < |init| ==> !StmtOutput(init[i]).fault) && !StmtOutput(last).fault
  {
    assert forall i :: 0 <= i < |init| ==> ss[i] == init[i];
    assert ss[|init|] == last;
  }

  /** Expression statements with and without `;` print `T(expr);`. */
  lemma ExpressionStatements(x: Expr)
    ensures StmtOutput(ExprStmt(x)) == StmtOutput(Semi(x))
    ensures !StmtOutput(Semi(x)).fault ==> StmtOutput(Semi(x)).text == ExprOutput(x).text + ";\n"
    ensures StmtOutput(Semi(x)).diags == ExprOutput(x).diags
  {
  }

  /** A `let` that is not a plain binding, or has no type, records one
      diagnostic and prints nothing, whatever its type and initializer are:
      the pattern is checked first, then the type, and the initializer is
      never looked at. */
  lemma LetRefused(l: Local)
    requires !Subset.PlainBinding(l.pat) || l.ty.None?
    ensures !LetOutput(l).fault && LetOutput(l).text == ""
    ensures LetOutput(l).diags ==
      [SpanErr(if !Subset.PlainBinding(l.pat) then "`let` binding must be a variable"
               else "`let` bindings must specify a type")]
  {
  }

  /** A `let x: T = e` that binds a plain variable and gives a type prints
      the C declaration `T x = e;`, and without an initializer `T x;`. A
      type the type translator refuses does not stop the statement: its
      diagnostic comes first and the rest is printed without a type. */
  lemma LetDeclaration(name: Ident, t: Ty, init: Option<Expr>)
    ensures var out := LetOutput(Local(IdentPat(ByValue(Immutable), name, None), Some(t), init));
      out.fault <==> init.Some? && ExprOutput(init.value).fault
    ensures var out := LetOutput(Local(IdentPat(ByValue(Immutable), name, None), Some(t), init));
      !out.fault ==>
        out.text == Types.TyOutput(t).text + " " + name +
                    (if init.Some? then " = " + ExprOutput(init.value).text else "") + ";\n"
    ensures var out := LetOutput(Local(IdentPat(ByValue(Immutable), name, None), Some(t), init));
      out.diags == Types.TyOutput(t).diags + (if init.Some? then ExprOutput(init.value).diags else [])
  {
    var l := Local(IdentPat(ByValue(Immutable), name, None), Some(t), init);
    var T := Types.TyOutput(t);
    var I := if init.Some? then Emit(" = ").Then(ExprOutput(init.value)) else Nothing;
    assert LetOutput(l) == T.Then(Emit(" " + name)).Then(I).Then(Emit(";\n"));
    Declared(T, name, I);
  }

  /** A declaration is the type, the name, the initializer part and `;`,
      whatever the type's diagnostics are. */
  lemma Declared(T: Output, name: string, I: Output)
    requires !T.fault
    ensures var out := T.Then(Emit(" " + name)).Then(I).Then(Emit(";\n"));
      (out.fault <==> I.fault) &&
      (!out.fault ==> out.text == T.text + " " + name + I.text + ";\n") &&
      out.diags == T.diags + I.diags
  {
  }

  /** `let x: (f32, f32) = 1;` records the type's diagnostic and still prints
      ` x = 1;`. */
  lemma RefusedTypeStillDeclared(x: Ident)
    ensures var out := LetOutput(Local(IdentPat(ByValue(Immutable), x, None),
                                       Some(Tup([PathTy(None, Path(false, [PathSegment("f32", [])])),
                                                 PathTy(None, Path(false, [PathSegment("f32", [])]))])),
                                       Some(LitExpr(Int(1)))));
      out == Output(" " + x + " = 1;\n", [SpanErr("can't translate this sort of type")], false)
  {
  }

  /** An unsupported binary operator records its diagnostic between those of
      the two operands, which are both still translated, and prints as an
      empty operator between them. */
  lemma UnsupportedOperator(op: BinOp, l: Expr, r: Expr)
    requires !Subset.SupportedBinOp(op)
    ensures var out := ExprOutput(Binary(op, l, r));
      out.fault <==> ExprOutput(l).fault || ExprOutput(r).fault
    ensures var out := ExprOutput(Binary(op, l, r));
      !out.fault ==>
        out.text == "(" + ExprOutput(l).text + "  " + ExprOutput(r).text + ")" &&
        out.diags == ExprOutput(l).diags + [SpanErr("binary operator not supported")] + ExprOutput(r).diags
  {
    var L, R := ExprOutput(l), ExprOutput(r);
    var err := Error("binary operator not supported");
    assert BinopOutput(op) == err;
    assert ExprOutput(Binary(op, l, r)) ==
      Emit("(").Then(L).Then(Output(" " + err.text + " ", err.diags, false)).Then(R).Then(Emit(")"));
    EmptyOperator(L, R);
  }

  /** `(L  R)` with the operator's diagnostic between those of its operands. */
  lemma EmptyOperator(L: Output, R: Output)
    ensures var err := Error("binary operator not supported");
      var out := Emit("(").Then(L).Then(Output(" " + err.text + " ", err.diags, false)).Then(R).Then(Emit(")"));
      (out.fault <==> L.fault || R.fault) &&
      (!out.fault ==>
        out.text == "(" + L.text + "  " + R.text + ")" &&
        out.diags == L.diags + [SpanErr("binary operator not supported")] + R.diags)
  {
    assert " " + "" + " " == "  ";
  }

  /** The tree with every `Paren` node replaced by its contents. */
  function StripParens(e: Expr): Expr
    decreases e
  {
    match e
    case Paren(x) => StripParens(x)
    case Binary(op, l, r) => Binary(op, StripParens(l), StripParens(r))
    case Unary(op, x) => Unary(op, StripParens(x))
    case If(c, thn, els) =>
      If(StripParens(c), StripBlock(thn), if els.Some? then Some(StripParens(els.value)) else None)
    case Assign(l, r) => Assign(StripParens(l), StripParens(r))
    case Ret(v) => Ret(if v.Some? then Some(StripParens(v.value)) else None)
    case Call(f, args) => Call(StripParens(f), StripArgs(args))
    case Field(b, m) => Field(StripParens(b), m)
    case BlockExpr(b) => BlockExpr(StripBlock(b))
    case _ => e
  }

  function StripArgs(args: seq<Expr>): (r: seq<Expr>)
    ensures |r| == |args|
    decreases args
  {
    if |args| == 0 then [] else StripArgs(args[..|args| - 1]) + [StripParens(args[|args| - 1])]
  }

  function StripBlock(b: Block): Block
    decreases b
  {
    Block(StripStmts(b.stmts))
  }

  function StripStmts(ss: seq<Stmt>): (r: seq<Stmt>)
    ensures |r| == |ss|
    decreases ss
  {
    if |ss| == 0 then [] else StripStmts(ss[..|ss| - 1]) + [StripStmt(ss[|ss| - 1])]
  }

  /** Item statements are refused whole, so they are left as they are. */
  function StripStmt(st: Stmt): Stmt
    decreases st
  {
    match st
    case LocalStmt(l) =>
      LocalStmt(Local(l.pat, l.ty, if l.init.Some? then Some(StripParens(l.init.value)) else None))
    case ExprStmt(x) => ExprStmt(StripParens(x))
    case Semi(x) => Semi(StripParens(x))
    case _ => st
  }

  /** Parentheses in the Rust tree are transparent: removing every `Paren`
      node changes neither the text, nor the diagnostics, nor whether the
      translation faults. */
  lemma {:induction false} ParensTransparent(e: Expr)
    ensures ExprOutput(StripParens(e)) == ExprOutput(e)
    decreases e
  {
    match e
    case Paren(x) =>
      ParensTransparent(x);
    case Binary(_, l, r) =>
      ParensTransparent(l);
      ParensTransparent(r);
    case Unary(_, x) =>
      ParensTransparent(x);
    case If(c, thn, els) =>
      ParensTransparent(c);
      BlockParensTransparent(thn);
      if els.Some? {
        ParensTransparent(els.value);
      }
    case Assign(l, r) =>
      ParensTransparent(l);
      ParensTransparent(r);
    case Ret(v) =>
      if v.Some? {
        ParensTransparent(v.value);
      }
    case Call(f, args) =>
      ParensTransparent(f);
      ArgsParensTransparent(args);
    case Field(b, _) =>
      ParensTransparent(b);
    case BlockExpr(b) =>
      BlockParensTransparent(b);
    case _ =>
  }

  lemma {:induction false} ArgsParensTransparent(args: seq<Expr>)
    ensures ArgsOutput(StripArgs(args)) == ArgsOutput(args)
    decreases args
  {
    if |args| > 0 {
      var s := StripArgs(args);
      assert s[..|s| - 1] == StripArgs(args[..|args| - 1]);
      ArgsParensTransparent(args[..|args| - 1]);
      ParensTransparent(args[|args| - 1]);
    }
  }

  lemma {:induction false} BlockParensTransparent(b: Block)
    ensures BlockOutput(StripBlock(b)) == BlockOutput(b)
    decreases b
  {
    StmtsParensTransparent(b.stmts);
  }

  lemma {:induction false} StmtsParensTransparent(ss: seq<Stmt>)
    ensures StmtsOutput(StripStmts(ss)) == StmtsOutput(ss)
    decreases ss
  {
    if |ss| > 0 {
      var s := StripStmts(ss);
      assert s[..|s| - 1] == StripStmts(ss[..|ss| - 1]);
      StmtsParensTransparent(ss[..|ss| - 1]);
      StmtParensTransparent(ss[|ss| - 1]);
    }
  }

  lemma {:induction false} StmtParensTransparent(st: Stmt)
    ensures StmtOutput(StripStmt(st)) == StmtOutput(st)
    decreases st
  {
    match st
    case LocalStmt(l) =>
      if l.init.Some? {
        ParensTransparent(l.init.value);
      }
    case ExprStmt(x) =>
      ParensTransparent(x);
    case Semi(x) =>
      ParensTransparent(x);
    case _ =>
  }
}
