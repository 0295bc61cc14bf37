# glassful code generator, modelled in Dafny

glassful translates a small subset of Rust into GLSL. After the Rust tree has
been parsed and macro-expanded, a set of translators walks it. They append GLSL
text to one output string and record diagnostics in the session's handler. This
project models that code generator:

- the name helpers (`simple_path`, `pat_to_var`);
- the type translator;
- the expression translator with its operator tables;
- the block and `let` translator;
- the item translator;
- the driver's attribute loop, `#version` preamble, item loop and
  `abort_if_errors` checkpoints.

The model has three layers:

- **Specification functions** (`CodeGen`, `Types.TyOutput`, `Items.ItemOutput`,
  `Driver.Translation`) give each translator's effect as a value,
  `Output(text, diags, fault)`. `text` is what it appends. `diags` are the
  `span_err` diagnostics it records. `fault` says whether it reached a
  `span_bug`, which panics and so ends the walk. `a.Then(b)` runs `b` after
  `a` unless `a` has faulted.
- **Imperative translators** (`Emitter`, `Types.TranslateTy`, `Items.Translate*`,
  `Driver.Translate*`) are methods on a `Writer.Session`. The session holds the
  output buffer and the diagnostic handler. Each method writes piece by piece,
  as the source does. Each is proved to leave the session exactly as the old
  state followed by its specification function's output.
- **Properties** are proved about the specification functions:
  - parentheses are always balanced, and binary, unary and assignment
    expressions are single groups;
  - parentheses in the Rust tree are transparent;
  - the translators accept exactly the supported subset;
  - calls separate their arguments by commas, and blocks are their statements
    in order;
  - the `let` rules;
  - the item checks, which each add a diagnostic independently;
  - version selection;
  - the driver's all-or-nothing result.

Behaviour that the code fixes and the model keeps:

- `simple_path` does not look at a segment's generic parameters, because the
  guard is commented out. So `Vec<f32>` is printed as `Vec`.
- An unsupported binary operator is printed as the empty string, so `a % b`
  becomes `(a  b)` with one diagnostic, and both operands are still translated.
- Integer literals are unbounded naturals, printed in decimal.
- The `allow_return` flag is read nowhere.

## Model

| member | source | states |
|---|---|---|
| Names.SimplePath | src/util.rs:3-9 | a path reduces to a name exactly when it has one segment, and the name is that segment's identifier unchanged |
| Names.SimplePathIgnoresParameters | src/util.rs:5-6 | the generic parameters and the leading `::` of a path never change what it reduces to |
| Names.PatToVar | src/util.rs:11-16 | a pattern reduces to a name exactly when it is a by-value, immutable identifier binding with no `@` sub-pattern, and the name is the bound identifier |
| Names.PatToVarExactly | src/util.rs:11-16 | the only pattern that reduces to `n` is the plain binding `n`; `mut x`, `ref x`, `ref mut x` and `x @ p` reduce to nothing |
| Types.TyOutput | src/ty.rs:10-31 | a type never faults; it records at most one diagnostic; it prints text exactly when it records no diagnostic; and the text has no parenthesis |
| Types.TranslateTy | src/ty.rs:5-32 | appending to the session is exactly `TyOutput`: the old buffer and diagnostics followed by the type's |
| Types.OnlyF32Remapped | src/ty.rs:20-24 | a one-segment type name is printed unchanged exactly when it is not `f32`, and `f32` is printed `float` |
| Types.TupleTypes | src/ty.rs:11-30 | `()` prints `void`; a tuple with elements records "can't translate this sort of type" and prints nothing |
| Types.QualifiedTypeRefused | src/ty.rs:15-18 | a path type with zero or several segments records "can't translate qualified / parametrized name" and prints nothing |
| Types.TyCleanIff | src/ty.rs:10-31 | a type translates without a diagnostic exactly when it is `()` or a one-segment path |
| CodeGen.BinopOutput | src/expr.rs:7-26 | the twelve supported operators print non-empty text with no diagnostic; every other operator prints `""` and records exactly "binary operator not supported"; no spelling holds a parenthesis |
| CodeGen.UnopOutput | src/expr.rs:28-37 | `!` and `-` print with no diagnostic; every other operator prints `""` and records exactly "unary operator not supported" |
| CodeGen.Unescape | src/expr.rs:57-63 | a name is changed exactly when it is `mod_`, which becomes `mod` |
| CodeGen.LitOutput | src/expr.rs:45-55 | integer and float literals print with no diagnostic, and an integer's text reads back as its value; every other literal records "can't translate this literal" |
| CodeGen.ArgsFaultStops | src/expr.rs:119-124 | once an argument faults, the later arguments add nothing |
| CodeGen.StmtsFaultStops | src/block.rs:11-25 | once a statement faults, the later statements add nothing |
| Text.DecimalRoundTrip | src/expr.rs:46-48 | the decimal text of a natural reads back as that natural |
| Writer.ThenExtends | src/block.rs:11-20 | a translator only appends: the text and diagnostics already there are kept unchanged |
| Writer.Session.Write | src/expr.rs:73 | `write!` appends its text and changes nothing else |
| Writer.Session.SpanErr | src/expr.rs:22 | `span_err` records one diagnostic and changes nothing else |
| Writer.Session.SpanBug | src/expr.rs:141-143 | `span_bug` faults and stops the walk |
| Emitter.GetBinop | src/expr.rs:7-26 | returns the operator's spelling and records its diagnostic, as `BinopOutput` says |
| Emitter.GetUnop | src/expr.rs:28-37 | returns the operator's spelling and records its diagnostic, as `UnopOutput` says |
| Emitter.TranslateExpr | src/expr.rs:39-149 | appends exactly `ExprOutput(e)` to the session, for every arm |
| Emitter.TranslateBinary | src/expr.rs:72-78 | the `Binary` arm appends `ExprOutput` of the binary expression |
| Emitter.WriteBinop | src/expr.rs:75 | writes the looked-up operator between two spaces, after recording its diagnostic |
| Emitter.TranslateUnary | src/expr.rs:80-84 | the `Unary` arm appends `ExprOutput` of the unary expression |
| Emitter.TranslateIf | src/expr.rs:86-97 | the `If` arm appends `ExprOutput` of the conditional, with or without `else` |
| Emitter.TranslateAssign | src/expr.rs:99-105 | the `Assign` arm appends `ExprOutput` of the assignment |
| Emitter.TranslateRet | src/expr.rs:107-114 | the `Ret` arm appends `ExprOutput` of the return, with or without a value |
| Emitter.TranslateCall | src/expr.rs:116-126 | the `Call` arm appends `ExprOutput` of the call |
| Emitter.TranslateArgs | src/expr.rs:119-124 | the argument loop appends exactly `ArgsOutput(args)`, stopping at a fault |
| Emitter.TranslateArg | src/expr.rs:120-123 | one turn of the argument loop: a separator unless it is the first, then the argument |
| Emitter.TranslateField | src/expr.rs:128-131 | the `Field` arm appends the base, then `.` and the field name |
| Emitter.TranslateBraced | src/expr.rs:135-139 | the `Block` arm appends the block between `{` and `}` lines |
| Emitter.TranslateBlock | src/block.rs:5-37 | appends exactly `BlockOutput(b)`, whatever `allowReturn` is |
| Emitter.TranslateStmt | src/block.rs:12-24 | appends exactly `StmtOutput(st)` for every kind of statement |
| Emitter.TranslateLet | src/block.rs:39-67 | appends exactly `LetOutput(loc)`, including the early returns |
| Nesting.ExprWellNested | src/expr.rs:39-149 | every expression's text has balanced parentheses, unless it faults |
| Nesting.BinaryGrouped | src/expr.rs:72-78 | a binary expression prints `(L op R)`, one parenthesised group, for every operator |
| Nesting.UnaryGrouped | src/expr.rs:80-84 | a unary expression prints `(op X)`, one parenthesised group |
| Nesting.AssignGrouped | src/expr.rs:99-105 | an assignment prints `(L = R)`, one parenthesised group |
| Nesting.IfWellNested | src/expr.rs:86-97 | an `if` prints balanced text |
| Nesting.ElseWellNested | src/expr.rs:91-96 | what follows the `then` block is balanced |
| Nesting.RetWellNested | src/expr.rs:107-114 | a `return` prints balanced text |
| Nesting.CallWellNested | src/expr.rs:116-126 | a call prints balanced text |
| Nesting.BracedWellNested | src/expr.rs:135-139 | a block expression prints balanced text |
| Nesting.ArgsWellNested | src/expr.rs:119-124 | the argument list prints balanced text |
| Nesting.BlockWellNested | src/block.rs:5-37 | a block prints balanced text |
| Nesting.StmtsWellNested | src/block.rs:11-25 | a run of statements prints balanced text |
| Nesting.StmtWellNested | src/block.rs:12-24 | every statement prints balanced text |
| Nesting.LetWellNested | src/block.rs:39-67 | a `let` prints balanced text |
| Acceptance.ExprAccepted | src/expr.rs:44-147 | a macro-free expression never faults, and records no diagnostic exactly when it lies in the supported subset |
| Acceptance.CompoundAccepted | src/expr.rs:72-126 | the same for binary expressions, conditionals and calls |
| Acceptance.ArgsAccepted | src/expr.rs:119-124 | macro-free arguments never fault, and record no diagnostic exactly when every argument is supported |
| Acceptance.BlockAccepted | src/block.rs:5-37 | a macro-free block never faults, and records no diagnostic exactly when every statement is supported |
| Acceptance.StmtsAccepted | src/block.rs:11-25 | the same for a run of statements |
| Acceptance.StmtAccepted | src/block.rs:12-24 | a macro-free statement never faults, and records no diagnostic exactly when it is a supported `let` or expression statement |
| Acceptance.LetAccepted | src/block.rs:39-67 | a `let` records no diagnostic exactly when it binds a plain variable with a supported type and a supported initializer |
| Layout.ArgsJoined | src/expr.rs:119-124 | the arguments fault exactly when one of them does; otherwise their texts are joined by `", "`, with no separator before the first or after the last |
| Layout.CallPrinted | src/expr.rs:116-126 | a call prints `f(a, b, ...)`, and `f()` with no argument |
| Layout.StmtsConcat | src/block.rs:11-25 | translating two runs of statements one after the other is translating their concatenation |
| Layout.BlockIsItsStatements | src/block.rs:11-25 | a block faults exactly when one of its statements does; otherwise its text is its statements' texts in order, with nothing between or around them |
| Layout.ExpressionStatements | src/block.rs:17-20 | `e` and `e;` both print `T(e);` and record `e`'s diagnostics |
| Layout.LetRefused | src/block.rs:44-58 | a `let` that is not a plain binding, or has no type, records exactly one diagnostic and prints nothing; the pattern is checked before the type |
| Layout.LetDeclaration | src/block.rs:60-66 | a typed plain `let x: T = e` prints `T x = e;` and `T x;` without an initializer; it faults exactly when the initializer does; its diagnostics are the type's, then the initializer's, so a refused type is reported and the rest is still printed |
| Layout.RefusedTypeStillDeclared | src/block.rs:60-66 | `let x: (f32, f32) = 1;` prints ` x = 1;` and records "can't translate this sort of type" |
| Layout.UnsupportedOperator | src/expr.rs:72-78 | an unsupported binary operator prints `(L  R)`, with its diagnostic between its operands' diagnostics; it faults exactly when an operand does |
| Layout.ParensTransparent | src/expr.rs:133 | removing every `Paren` node changes neither the text, nor the diagnostics, nor whether translation faults |
| Layout.ArgsParensTransparent | src/expr.rs:133 | the same for argument lists |
| Layout.BlockParensTransparent | src/expr.rs:133 | the same for blocks |
| Layout.StmtsParensTransparent | src/expr.rs:133 | the same for runs of statements |
| Layout.StmtParensTransparent | src/expr.rs:133 | the same for statements |
| Items.ErrorIf | src/item.rs:39-41 | a check prints nothing, and records its one diagnostic exactly when it fails |
| Items.ReturnType | src/item.rs:57-64 | the default return type is passed as `None`; an explicit one is passed as `Some` of that type |
| Items.TranslateItem | src/item.rs:6-77 | appends exactly `ItemOutput(it)` to the session |
| Items.TranslateKind | src/item.rs:14-76 | appends exactly the output of the item's kind |
| Items.TranslateFn | src/item.rs:31-67 | a function appends one diagnostic per attribute, then the four signature checks, then the function translator's output |
| Items.AttrErrorsCount | src/item.rs:32-34 | a function gets exactly one "no function attributes are supported" per attribute, and no text |
| Items.VisibilityOnlyWarns | src/item.rs:9-12 | a `pub` marker adds its diagnostic first and changes nothing else |
| Items.MutableStaticStillTranslated | src/item.rs:15-23 | `static mut` adds "variables are implicitly mutable" and is otherwise translated as the immutable static |
| Items.ConstIsPrefixedStatic | src/item.rs:25-29 | a constant prints `const ` and then what the immutable static with the same name, type and value prints |
| Items.FnDiagnostics | src/item.rs:31-55 | before the function translator runs, a function has one diagnostic per attribute and one per failed signature check, independently, and no text |
| Items.UnsupportedItems | src/item.rs:69-75 | a macro item faults; any other unsupported item records "can't translate this sort of item" and prints nothing |
| Driver.ValueStr | src/lib.rs:47 | an attribute has a value exactly when it is `name = "string"`, and the value is that string |
| Driver.Translate | src/lib.rs:44-76 | the driver returns exactly `Translation(k)`: an abort after the attributes, the panic of a fault, an abort after the items, or the text |
| Driver.ProcessAttributes | src/lib.rs:44-58 | the attribute loop ends with the version `AttrPhase` gives and records its diagnostics, printing nothing |
| Driver.TranslateItems | src/lib.rs:69-71 | the item loop appends exactly `ItemsOutput(items)`, stopping at a fault |
| Driver.ItemsFaultStops | src/lib.rs:69-71 | once an item faults, the later items add nothing |
| Driver.VersionIsLastGiven | src/lib.rs:44-58 | there is no version exactly when no attribute gives one; otherwise it is the value of the last attribute that does |
| Driver.AttrDiagnosticCount | src/lib.rs:44-58 | every attribute records one diagnostic, except the first one that gives a version |
| Driver.AttrPhaseCleanIff | src/lib.rs:44-60 | the attributes pass the first checkpoint exactly when there is none, or only one `version = "..."` |
| Driver.VersionGivenTwice | src/lib.rs:47-51 | after any attributes that chose a version, a further `version = "…"` records "version given twice" and its value replaces the version |
| Driver.VersionChosen | src/lib.rs:47-51 | after any attributes that chose no version, a `version = "…"` chooses its value and records nothing |
| Driver.AttributeRefused | src/lib.rs:46-57 | after any attributes, one that gives no version keeps the version and records "version not given" if it is named `version`, "unknown attribute" otherwise |
| Driver.TwoVersions | src/lib.rs:47-51 | `#![version = "a"] #![version = "b"]` chooses `b` and records exactly "version given twice" |
| Driver.AttributeErrorsAbort | src/lib.rs:60 | any attribute diagnostic aborts with those diagnostics, whatever the items and translators are |
| Driver.VersionOnly | src/lib.rs:64-67 | a crate holding only `#![version = "v"]` translates to `#version v` followed by an empty line |
| Driver.ItemsConcat | src/lib.rs:69-71 | items are printed in declaration order: translating `a + b` is translating `a`, then `b` |
| Driver.TranslatedIff | src/lib.rs:60-76 | text is returned exactly when nothing recorded a diagnostic or faulted, and it is then the preamble followed by every item's text; with no attribute the preamble is empty |
| Driver.NoPanicWithoutMacros | src/lib.rs:69-71 | with no macro item left, only the variable or function translator can make the driver panic |
| Driver.ItemsNoFault | src/lib.rs:69-71 | items without macros, translated by non-faulting backends, never fault |

## Left out

- Parsing and macro expansion (src/lib.rs:26-42) are calls into the host compiler. The model starts from the expanded crate, `Ast.Crate`.
- Driver.Translate: starts from a fresh session, so it assumes that macro expansion recorded no diagnostic. In the source, expansion shares the session (src/lib.rs:36-41), and the checkpoint at src/lib.rs:60 would also abort on its diagnostics.
- `try_translate` (src/lib.rs:82-87) runs the translation in a thread to catch panics. The model has no concurrency. `abort_if_errors` also ends the thread by unwinding (src/lib.rs:24), so its `None` covers both the `Driver.Outcome.Aborted` and the `Driver.Outcome.Panicked` results.
- src/var.rs and src/fun.rs are not part of this model. `var::translate` and `fun::translate` are parameters (`Items.Backends`), each given by the output it produces. `Writer.Session.Perform` applies such an output to the session.
- Spans, and every part of the diagnostic handler except the list of `span_err` messages and the `span_bug` fault, are not modelled.
- Integer literals are modelled as unbounded naturals. The source's `u64` bound is not modelled, because the generator only prints the value.
- Float literals are modelled by their symbol text, which is all the generator prints. Identifiers are strings of letters, digits, `_` and non-ASCII characters, which approximates the lexer's Unicode identifier rules.
- The commented-out tail-expression return (src/block.rs:27-36) and `NoReturn` case (src/item.rs:58-61) are dead code and are not modelled.
- Emitter: the expression translator is one method per recursive arm (`TranslateBinary`, `TranslateCall`, …) rather than one large `match`, and the loop bodies of the argument and statement loops are methods of their own.
- Driver.Translate: the `#version` preamble is written into the fresh session's empty buffer, rather than being the buffer's initial value. The result is the same string.
- Writer.Session: the output buffer and the diagnostic handler are one object. The source passes them separately, but every translator receives both and nothing aliases them.
