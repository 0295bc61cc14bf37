/** What the expression translator (src/expr.rs) and the block translator
    (src/block.rs) produce for each node, as functions of the tree: the text
    they append, the diagnostics they record, and whether they fault. */
module CodeGen {
  import opened Ast
  import opened Writer
  import Names
  import Types
  import Subset
  import Text

  /** `get_binop`: the operator's GLSL spelling, or `""` and a diagnostic. */
  function BinopOutput(op: BinOp): (r: Output)
    ensures !r.fault
    ensures r.diags == [] <==> Subset.SupportedBinOp(op)
    ensures r.diags == [] <==> r.text != ""
    ensures r.diags != [] ==> r == Error("binary operator not supported")
    ensures Text.ParenFree(r.text)
  {
    match op
    case Add => Emit("+")
    case Sub => Emit("-")
    case Mul => Emit("*")
    case Div => Emit("/")
    case And => Emit("&&")
    case Or => Emit("||")
    case Eq => Emit("==")
    case Lt => Emit("<")
    case Le => Emit("<=")
    case Ne => Emit("!=")
    case Ge => Emit(">=")
    case Gt => Emit(">")
    case _ => Error("binary operator not supported")
  }

  /** `get_unop`: `!` and `-`, or `""` and a diagnostic. */
  function UnopOutput(op: UnOp): (r: Output)
    ensures !r.fault
    ensures r.diags == [] <==> Subset.SupportedUnOp(op)
    ensures r.diags == [] <==> r.text != ""
    ensures r.diags != [] ==> r == Error("unary operator not supported")
    ensures Text.ParenFree(r.text)
  {
    match op
    case Not => Emit("!")
    case Neg => Emit("-")
    case _ => Error("unary operator not supported")
  }

  /** The escaped spelling `mod_` of the GLSL function `mod` is printed bare. */
  function Unescape(name: Ident): (r: Ident)
    ensures r != name <==> name == "mod_"
    ensures name == "mod_" ==> r == "mod"
  {
    if name == "mod_" then "mod" else name
  }

  function LitOutput(l: Lit): (r: Output)
    ensures !r.fault
    ensures r.diags == [] <==> Subset.SupportedLit(l)
    ensures r.diags != [] ==> r == Error("can't translate this literal")
    ensures l.Int? ==> Text.DecimalValue(r.text) == l.value
    ensures Text.ParenFree(r.text)
  {
    match l
    case Int(n) =>
      Text.DecimalRoundTrip(n);
      Emit(Text.DecimalText(n))
    case Float(f) => Emit(f)
    case FloatUnsuffixed(f) => Emit(f)
    case _ => Error("can't translate this literal")
  }

  function PathOutput(p: Path): Output {
    match Names.SimplePath(p)
    case Some(name) => Emit(Unescape(name))
    case None => Error("can't translate qualified / parametrized name")
  }

  /** `expr::translate`. */
  function ExprOutput(e: Expr): Output
    decreases e
  {
    match e
    case LitExpr(l) => LitOutput(l)
    case PathExpr(_, p) => PathOutput(p)
    case Binary(op, l, r) =>
      var o := BinopOutput(op);
      Emit("(").Then(ExprOutput(l)).Then(Output(" " + o.text + " ", o.diags, false))
        .Then(ExprOutput(r)).Then(Emit(")"))
    case Unary(op, x) =>
      var o := UnopOutput(op);
      Output("(" + o.text + " ", o.diags, false).Then(ExprOutput(x)).Then(Emit(")"))
    case If(c, thn, els) =>
      Emit("if (").Then(ExprOutput(c)).Then(Emit(") {\n")).Then(BlockOutput(thn))
        .Then(if els.Some? then Emit("}\nelse ").Then(ExprOutput(els.value)) else Emit("}\n"))
    case Assign(l, r) =>
      Emit("(").Then(ExprOutput(l)).Then(Emit(" = ")).Then(ExprOutput(r)).Then(Emit(")"))
    case Ret(v) =>
      Emit("return").Then(if v.Some? then Emit(" ").Then(ExprOutput(v.value)) else Nothing)
        .Then(Emit(";\n"))
    case Call(f, args) =>
      ExprOutput(f).Then(Emit("(")).Then(ArgsOutput(args)).Then(Emit(")"))
    case Field(b, m) => ExprOutput(b).Then(Emit("." + m))
    case Paren(x) => ExprOutput(x)
    case BlockExpr(b) => Emit("{\n").Then(BlockOutput(b)).Then(Emit("}\n"))
    case MacExpr => Bug
    case OtherExpr => Error("can't translate this sort of expression")
  }

  /** The arguments of a call, `", "` before every one but the first. */
  function ArgsOutput(args: seq<Expr>): Output
    decreases args
  {
    if |args| == 0 then Nothing
    else
      ArgsOutput(args[..|args| - 1]).Then(Emit(if |args| == 1 then "" else ", "))
        .Then(ExprOutput(args[|args| - 1]))
  }

  /** `block::translate`; its `allow_return` flag has no effect. */
  function BlockOutput(b: Block): Output
    decreases b
  {
    StmtsOutput(b.stmts)
  }

  /** The statements one after the other, stopping at a fault. */
  function StmtsOutput(ss: seq<Stmt>): Output
    decreases ss
  {
    if |ss| == 0 then Nothing else StmtsOutput(ss[..|ss| - 1]).Then(StmtOutput(ss[|ss| - 1]))
  }

  function StmtOutput(st: Stmt): Output
    decreases st
  {
    match st
    case LocalStmt(l) => LetOutput(l)
    case ItemStmt(_) => Error("items in functions not supported")
    case ExprStmt(x) => ExprOutput(x).Then(Emit(";\n"))
    case Semi(x) => ExprOutput(x).Then(Emit(";\n"))
    case MacStmt => Bug
  }

  /** `translate_let`. */
  function LetOutput(l: Local): Output
    decreases l
  {
    match Names.PatToVar(l.pat)
    case None => Error("`let` binding must be a variable")
    case Some(name) =>
      match l.ty
      case None => Error("`let` bindings must specify a type")
      case Some(t) =>
        Types.TyOutput(t).Then(Emit(" " + name))
          .Then(if l.init.Some? then Emit(" = ").Then(ExprOutput(l.init.value)) else Nothing)
          .Then(Emit(";\n"))
  }

  /** Once a prefix of the arguments faults, the rest is never translated. */
  lemma {:induction false} ArgsFaultStops(args: seq<Expr>, k: nat)
    requires k <= |args| && ArgsOutput(args[..k]).fault
    ensures ArgsOutput(args) == ArgsOutput(args[..k])
    decreases |args|
  {
    if k < |args| {
      assert args[..|args| - 1][..k] == args[..k];
      ArgsFaultStops(args[..|args| - 1], k);
    } else {
      assert args[..k] == args;
    }
  }

  /** Once a prefix of the statements faults, the rest is never translated. */
  lemma {:induction false} StmtsFaultStops(ss: seq<Stmt>, k: nat)
    requires k <= |ss| && StmtsOutput(ss[..k]).fault
    ensures StmtsOutput(ss) == StmtsOutput(ss[..k])
    decreases |ss|
  {
    if k < |ss| {
      assert ss[..|ss| - 1][..k] == ss[..k];
      StmtsFaultStops(ss[..|ss| - 1], k);
    } else {
      assert ss[..k] == ss;
    }
  }
}
