/** The macro-expanded syntax tree the generator walks: the parts of the
    host compiler's AST that the translators read, with every other shape
    collapsed into one `Other…` alternative per node kind. */
module Ast {

  datatype Option<+T> = None | Some(value: T)

  /** Characters the lexer admits in an identifier. */
  predicate IdentChar(c: char) {
    c == '_' || ('a' <= c <= 'z') || ('A' <= c <= 'Z') || ('0' <= c <= '9') || c as int > 127
  }

  /** An identifier as the lexer produces it: never empty, no punctuation. */
  type Ident = s: string | |s| > 0 && forall i :: 0 <= i < |s| ==> IdentChar(s[i])
    witness "x"

  /** Characters that occur in the symbol of a float literal (suffix excluded). */
  predicate FloatChar(c: char) {
    ('0' <= c <= '9') || c == '.' || c == '_' || c == 'e' || c == 'E' || c == '+' || c == '-'
  }

  type FloatSymbol = s: string | |s| > 0 && forall i :: 0 <= i < |s| ==> FloatChar(s[i])
    witness "0.0"

  datatype Mutability = Mutable | Immutable

  datatype BindingMode = ByRef(refMut: Mutability) | ByValue(valMut: Mutability)

  /** Patterns: an identifier binding `[ref] [mut] x [@ sub]`, or anything else. */
  datatype Pat =
    | IdentPat(mode: BindingMode, name: Ident, sub: Option<Pat>)
    | WildPat
    | TuplePat(elems: seq<Pat>)
    | OtherPat

  /** One segment of a path; `parameters` are its angle-bracketed type arguments. */
  datatype PathSegment = PathSegment(ident: Ident, parameters: seq<Ty>)

  datatype Path = Path(global: bool, segments: seq<PathSegment>)

  /** Types: tuples (the empty one is `()`), paths, and every other type shape. */
  datatype Ty =
    | Tup(elems: seq<Ty>)
    | PathTy(tyQself: Option<Ty>, tyPath: Path)
    | OtherTy

  datatype Lit =
    | Int(value: nat)
    | Float(symbol: FloatSymbol)
    | FloatUnsuffixed(unsuffixed: FloatSymbol)
    | Str(text: string)
    | Char(ch: char)
    | Byte(byte: nat)
    | Bool(truth: bool)

  datatype BinOp =
    | Add | Sub | Mul | Div | Rem | And | Or
    | BitXor | BitAnd | BitOr | Shl | Shr
    | Eq | Lt | Le | Ne | Ge | Gt

  datatype UnOp = Deref | Not | Neg

  datatype Expr =
    | LitExpr(lit: Lit)
    | PathExpr(qself: Option<Ty>, path: Path)
    | Binary(binop: BinOp, lhs: Expr, rhs: Expr)
    | Unary(unop: UnOp, operand: Expr)
    | If(cond: Expr, thn: Block, els: Option<Expr>)
    | Assign(lhs: Expr, rhs: Expr)
    | Ret(value: Option<Expr>)
    | Call(callee: Expr, args: seq<Expr>)
    | Field(base: Expr, member: Ident)
    | Paren(inner: Expr)
    | BlockExpr(block: Block)
    | MacExpr
    | OtherExpr

  datatype Block = Block(stmts: seq<Stmt>)

  /** `let pat [: ty] [= init];` */
  datatype Local = Local(pat: Pat, ty: Option<Ty>, init: Option<Expr>)

  datatype Stmt =
    | LocalStmt(local: Local)
    | ItemStmt(item: Item)
    | ExprStmt(expr: Expr)
    | Semi(expr: Expr)
    | MacStmt

  datatype Visibility = Public | CrateVis | Restricted(restriction: Path) | Inherited

  datatype Unsafety = Normal | Unsafe

  datatype Abi = Rust | OtherAbi(abiName: string)

  datatype Generics = Generics(lifetimes: seq<Ident>, tyParams: seq<Ident>) {
    predicate IsParameterized() {
      |lifetimes| > 0 || |tyParams| > 0
    }
  }

  datatype Arg = Arg(argPat: Pat, argTy: Ty)

  datatype FunctionRetTy = DefaultReturn | ReturnTy(retTy: Ty)

  datatype FnDecl = FnDecl(inputs: seq<Arg>, output: FunctionRetTy, variadic: bool)

  datatype ItemKind =
    | Static(staticTy: Ty, mutability: Mutability, staticInit: Expr)
    | Const(constTy: Ty, constInit: Expr)
    | Fn(decl: FnDecl, unsafety: Unsafety, constFn: bool, abi: Abi, generics: Generics, body: Block)
    | MacItem
    | OtherItem

  /** The meta item of an attribute: `#[name]`, `#[name(..)]` or `#[name = lit]`. */
  datatype MetaItem = Word | List | NameValue(lit: Lit)

  datatype Attribute = Attribute(name: string, meta: MetaItem)

  datatype Item = Item(ident: Ident, attrs: seq<Attribute>, vis: Visibility, kind: ItemKind)

  /** The expanded crate: its inner (module-level) attributes and its items. */
  datatype Crate = Crate(attrs: seq<Attribute>, items: seq<Item>)
}
