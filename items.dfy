/** The item translator (src/item.rs): it refuses a `pub` marker, then hands
    statics and constants to the variable translator and functions to the
    function translator after checking their signature, each check adding
    its own diagnostic without stopping the translation. The variable and
    function translators themselves (src/var.rs, src/fun.rs) are not part of
    this model: they are parameters, each given by the output it produces. */
module Items {
  import opened Ast
  import opened Writer

  /** `var::translate` and `fun::translate`, given by the output they
      produce for their arguments. */
  datatype Backends = Backends(
    varTranslate: (seq<Attribute>, Ident, Ty, Option<Expr>) -> Output,
    fnTranslate: (Ident, seq<Arg>, Option<Ty>, Block) -> Output)

  /** One diagnostic when `cond` holds, and nothing otherwise. */
  function ErrorIf(cond: bool, message: string): (r: Output)
    ensures r.text == "" && !r.fault
    ensures r.diags == if cond then [SpanErr(message)] else []
  {
    if cond then Error(message) else Nothing
  }

  function VisibilityOutput(vis: Visibility): Output {
    ErrorIf(vis != Inherited, "`pub` visibility has no meaning")
  }

  /** One diagnostic for each attribute of a function. */
  function AttrErrors(attrs: seq<Attribute>): Output
    decreases attrs
  {
    if |attrs| == 0 then Nothing
    else AttrErrors(attrs[..|attrs| - 1]).Then(Error("no function attributes are supported"))
  }

  /** The four independent checks on a function's signature. */
  function SignatureOutput(decl: FnDecl, unsafety: Unsafety, abi: Abi, generics: Generics): Output {
    ErrorIf(decl.variadic, "can't translate variadic functions")
      .Then(ErrorIf(unsafety != Normal, "can't translate unsafe functions"))
      .Then(ErrorIf(abi != Rust, "can't translate non-default ABI"))
      .Then(ErrorIf(generics.IsParameterized(), "can't translate generic functions"))
  }

  /** The return type handed to the function translator. */
  function ReturnType(output: FunctionRetTy): (r: Option<Ty>)
    ensures r.None? <==> output.DefaultReturn?
    ensures r.Some? ==> r.value == output.retTy
  {
    match output
    case DefaultReturn => None
    case ReturnTy(t) => Some(t)
  }

  /** The part of `item::translate` after the visibility check. */
  function KindOutput(ident: Ident, attrs: seq<Attribute>, kind: ItemKind, bk: Backends): Output {
    match kind
    case Static(t, m, x) =>
      ErrorIf(m != Immutable, "variables are implicitly mutable")
        .Then(bk.varTranslate(attrs, ident, t, Some(x)))
    case Const(t, x) =>
      Emit("const ").Then(bk.varTranslate(attrs, ident, t, Some(x)))
    case Fn(decl, unsafety, _, abi, generics, body) =>
      AttrErrors(attrs).Then(SignatureOutput(decl, unsafety, abi, generics))
        .Then(bk.fnTranslate(ident, decl.inputs, ReturnType(decl.output), body))
    case MacItem => Bug
    case OtherItem => Error("can't translate this sort of item")
  }

  /** `item::translate`. */
  function ItemOutput(it: Item, bk: Backends): Output {
    VisibilityOutput(it.vis).Then(KindOutput(it.ident, it.attrs, it.kind, bk))
  }

  /** `translate` in src/item.rs, appending to the session's buffer. */
  method TranslateItem(s: Session, it: Item, bk: Backends)
    requires !s.fault
    modifies s
    ensures s.State() == old(s.State()).Then(ItemOutput(it, bk))
  {
    ghost var s0 := s.State();
    if it.vis != Inherited {
      s.SpanErr("`pub` visibility has no meaning");
    }
    assert s.State() == s0.Then(VisibilityOutput(it.vis));
    TranslateKind(s, it.ident, it.attrs, it.kind, bk);
    ThenAssoc(s0, VisibilityOutput(it.vis), KindOutput(it.ident, it.attrs, it.kind, bk));
  }

  /** The `match item.node` of `translate` in src/item.rs. */
  method TranslateKind(s: Session, ident: Ident, attrs: seq<Attribute>, kind: ItemKind, bk: Backends)
    requires !s.fault
    modifies s
    ensures s.State() == old(s.State()).Then(KindOutput(ident, attrs, kind, bk))
  {
    ghost var s0 := s.State();
    match kind
    case Static(t, m, x) =>
      if m != Immutable {
        s.SpanErr("variables are implicitly mutable");
      }
      s.Perform(bk.varTranslate(attrs, ident, t, Some(x)));
      ThenAssoc(s0, ErrorIf(m != Immutable, "variables are implicitly mutable"),
        bk.varTranslate(attrs, ident, t, Some(x)));
    case Const(t, x) =>
      s.Write("const ");
      s.Perform(bk.varTranslate(attrs, ident, t, Some(x)));
      ThenAssoc(s0, Emit("const "), bk.varTranslate(attrs, ident, t, Some(x)));
    case Fn(decl, unsafety, _, abi, generics, body) =>
      TranslateFn(s, ident, attrs, decl, unsafety, abi, generics, body, bk);
    case MacItem =>
      s.SpanBug();
    case OtherItem =>
      s.SpanErr("can't translate this sort of item");
  }

  /** The `Fn` arm of `translate` in src/item.rs. */
  method TranslateFn(s: Session, ident: Ident, attrs: seq<Attribute>, decl: FnDecl, unsafety: Unsafety,
                     abi: Abi, generics: Generics, body: Block, bk: Backends)
    requires !s.fault
    modifies s
    ensures s.State() == old(s.State()).Then(
      AttrErrors(attrs).Then(SignatureOutput(decl, unsafety, abi, generics))
        .Then(bk.fnTranslate(ident, decl.inputs, ReturnType(decl.output), body)))
  {
    ghost var s0 := s.State();
    for i := 0 to |attrs|
      invariant s.State() == s0.Then(AttrErrors(attrs[..i]))
      invariant !s.fault
    {
      s.SpanErr("no function attributes are supported");
      assert attrs[..i + 1][..i] == attrs[..i];
      ThenAssoc(s0, AttrErrors(attrs[..i]), Error("no function attributes are supported"));
    }
    assert attrs[..|attrs|] == attrs;
    ghost var s1 := s.State();
    ghost var e1 := ErrorIf(decl.variadic, "can't translate variadic functions");
    ghost var e2 := ErrorIf(unsafety != Normal, "can't translate unsafe functions");
    ghost var e3 := ErrorIf(abi != Rust, "can't translate non-default ABI");
    ghost var e4 := ErrorIf(generics.IsParameterized(), "can't translate generic functions");
    if decl.variadic {
      s.SpanErr("can't translate variadic functions");
    }
    assert s.State() == s1.Then(e1);
    if unsafety != Normal {
      s.SpanErr("can't translate unsafe functions");
    }
    ThenAssoc(s1, e1, e2);
    assert s.State() == s1.Then(e1.Then(e2));
    if abi != Rust {
      s.SpanErr("can't translate non-default ABI");
    }
    ThenAssoc(s1, e1.Then(e2), e3);
    assert s.State() == s1.Then(e1.Then(e2).Then(e3));
    if generics.IsParameterized() {
      s.SpanErr("can't translate generic functions");
    }
    ThenAssoc(s1, e1.Then(e2).Then(e3), e4);
    assert s.State() == s1.Then(SignatureOutput(decl, unsafety, abi, generics));
    var output := match decl.output
      case DefaultReturn => None
      case ReturnTy(t) => Some(t);
    var effect := bk.fnTranslate(ident, decl.inputs, output, body);
    s.Perform(effect);
    ThenAssoc(s0, AttrErrors(attrs), SignatureOutput(decl, unsafety, abi, generics));
    ThenAssoc(s0, AttrErrors(attrs).Then(SignatureOutput(decl, unsafety, abi, generics)), effect);
  }

  /** A function gets exactly one diagnostic per attribute. */
  lemma {:induction false} AttrErrorsCount(attrs: seq<Attribute>)
    ensures AttrErrors(attrs) ==
      Output("", seq(|attrs|, _ => SpanErr("no function attributes are supported")), false)
    decreases attrs
  {
    if |attrs| > 0 {
      AttrErrorsCount(attrs[..|attrs| - 1]);
    }
  }

  /** A `pub` marker adds its diagnostic first and changes nothing else: the
      item is translated exactly as it would be without it. */
  lemma VisibilityOnlyWarns(it: Item, bk: Backends)
    requires it.vis != Inherited
    ensures ItemOutput(it, bk) ==
      Error("`pub` visibility has no meaning").Then(ItemOutput(it.(vis := Inherited), bk))
  {
    ThenAssoc(Error("`pub` visibility has no meaning"), Nothing, KindOutput(it.ident, it.attrs, it.kind, bk));
  }

  /** A `static mut` adds its diagnostic and is still handed to the
      variable translator, exactly as the immutable static would be. */
  lemma MutableStaticStillTranslated(ident: Ident, attrs: seq<Attribute>, t: Ty, x: Expr, bk: Backends)
    ensures ItemOutput(Item(ident, attrs, Inherited, Static(t, Mutable, x)), bk) ==
      Error("variables are implicitly mutable")
        .Then(ItemOutput(Item(ident, attrs, Inherited, Static(t, Immutable, x)), bk))
  {
    var v := bk.varTranslate(attrs, ident, t, Some(x));
    assert Nothing.Then(Error("variables are implicitly mutable")) == Error("variables are implicitly mutable");
    assert Nothing.Then(Nothing.Then(v)) == v;
  }

  /** A constant is printed as the immutable static of the same name, type
      and value, preceded by `const `. */
  lemma ConstIsPrefixedStatic(ident: Ident, attrs: seq<Attribute>, vis: Visibility, t: Ty, x: Expr, bk: Backends)
    ensures ItemOutput(Item(ident, attrs, vis, Const(t, x)), bk) ==
      VisibilityOutput(vis).Then(Emit("const ")).Then(KindOutput(ident, attrs, Static(t, Immutable, x), bk))
  {
    var v := bk.varTranslate(attrs, ident, t, Some(x));
    assert Nothing.Then(v) == v;
    ThenAssoc(VisibilityOutput(vis), Emit("const "), v);
  }

  /** Every check on a function adds its own diagnostic, whatever the
      others find: before the function translator runs, a function has one
      diagnostic per attribute and one per failed signature check, and
      nothing is printed. */
  lemma FnDiagnostics(it: Item, bk: Backends)
    requires it.kind.Fn?
    ensures var k := it.kind;
      var before := AttrErrors(it.attrs).Then(SignatureOutput(k.decl, k.unsafety, k.abi, k.generics));
      KindOutput(it.ident, it.attrs, k, bk) == before.Then(bk.fnTranslate(it.ident, k.decl.inputs, ReturnType(k.decl.output), k.body)) &&
      before.text == "" && !before.fault &&
      |before.diags| == |it.attrs| +
        (if k.decl.variadic then 1 else 0) + (if k.unsafety != Normal then 1 else 0) +
        (if k.abi != Rust then 1 else 0) + (if k.generics.IsParameterized() then 1 else 0)
  {
    AttrErrorsCount(it.attrs);
  }

  /** A macro item is an internal fault; any other kind of item is refused
      with one diagnostic and prints nothing. */
  lemma UnsupportedItems(it: Item, bk: Backends)
    requires it.kind.MacItem? || it.kind.OtherItem?
    ensures it.kind.MacItem? ==> ItemOutput(it, bk).fault
    ensures it.kind.OtherItem? ==>
      ItemOutput(it, bk) == VisibilityOutput(it.vis).Then(Error("can't translate this sort of item"))
  {
  }
}
