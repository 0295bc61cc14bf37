/** The driver (`translate` in src/lib.rs) after parsing and macro
    expansion: the crate's attributes choose the GLSL version, any error so
    far aborts, the `#version` line is followed by every item in order, and
    any error in the items aborts again, so that either the whole program is
    returned or nothing is. */
module Driver {
  import opened Ast
  import opened Writer
  import opened Items

  /** What `translate` ends in: the GLSL text, an abort by
      `abort_if_errors` with the diagnostics recorded so far, or the panic
      of a `span_bug`. */
  datatype Outcome = Translated(glsl: string) | Aborted(diags: seq<Diagnostic>) | Panicked

  /** `attr.value_str()`: the string of `#![name = "…"]`. */
  function ValueStr(a: Attribute): (r: Option<string>)
    ensures r.Some? <==> a.meta.NameValue? && a.meta.lit.Str?
    ensures r.Some? ==> r.value == a.meta.lit.text
  {
    match a.meta
    case NameValue(Str(text)) => Some(text)
    case _ => None
  }

  /** `#![version = "…"]`. */
  predicate IsVersion(a: Attribute) {
    a.name == "version" && ValueStr(a).Some?
  }

  /** The version chosen so far and the diagnostics recorded so far. */
  datatype AttrState = AttrState(version: Option<string>, diags: seq<Diagnostic>)

  /** One turn of the attribute loop. */
  function AttrStep(st: AttrState, a: Attribute): AttrState {
    if a.name == "version" then
      match ValueStr(a)
      case Some(v) =>
        AttrState(Some(v), st.diags + if st.version.Some? then [SpanErr("version given twice")] else [])
      case None => AttrState(st.version, st.diags + [SpanErr("version not given")])
    else AttrState(st.version, st.diags + [SpanErr("unknown attribute")])
  }

  /** The attribute loop over a prefix of the crate's attributes. */
  function AttrPhase(attrs: seq<Attribute>): AttrState {
    if |attrs| == 0 then AttrState(None, [])
    else AttrStep(AttrPhase(attrs[..|attrs| - 1]), attrs[|attrs| - 1])
  }

  function Preamble(version: Option<string>): string {
    match version
    case Some(v) => "#version " + v + "\n\n"
    case None => ""
  }

  /** The items one after the other, stopping at a fault. */
  function ItemsOutput(items: seq<Item>, bk: Backends): Output {
    if |items| == 0 then Nothing
    else ItemsOutput(items[..|items| - 1], bk).Then(ItemOutput(items[|items| - 1], bk))
  }

  /** `translate` in src/lib.rs from line 44 on. */
  function Translation(k: Crate, bk: Backends): Outcome {
    var phase := AttrPhase(k.attrs);
    if phase.diags != [] then Aborted(phase.diags)
    else
      var o := Emit(Preamble(phase.version)).Then(ItemsOutput(k.items, bk));
      if o.fault then Panicked
      else if o.diags != [] then Aborted(o.diags)
      else Translated(o.text)
  }

  /** Once a prefix of the items faults, the rest is never translated. */
  lemma {:induction false} ItemsFaultStops(items: seq<Item>, j: nat, bk: Backends)
    requires j <= |items| && ItemsOutput(items[..j], bk).fault
    ensures ItemsOutput(items, bk) == ItemsOutput(items[..j], bk)
    decreases |items|
  {
    if j < |items| {
      assert items[..|items| - 1][..j] == items[..j];
      ItemsFaultStops(items[..|items| - 1], j, bk);
    } else {
      assert items[..j] == items;
    }
  }

  /** `translate` in src/lib.rs from line 44 on: the crate is already
      parsed and expanded, and the session is fresh. */
  method Translate(k: Crate, bk: Backends) returns (r: Outcome)
    ensures r == Translation(k, bk)
  {
    var s := new Session();
    var version := ProcessAttributes(s, k.attrs);
    assert s.diags == AttrPhase(k.attrs).diags;
    if s.diags != [] {
      return Aborted(s.diags);
    }
    var preamble := match version
      case Some(v) => "#version " + v + "\n\n"
      case None => "";
    assert preamble == Preamble(AttrPhase(k.attrs).version);
    s.Write(preamble);
    assert s.State() == Emit(preamble);
    TranslateItems(s, k.items, bk);
    ghost var o := Emit(preamble).Then(ItemsOutput(k.items, bk));
    assert s.State() == o;
    if s.fault {
      return Panicked;
    }
    if s.diags != [] {
      return Aborted(s.diags);
    }
    return Translated(s.out);
  }

  /** The attribute loop: the version chosen, and one diagnostic for each
      attribute that is not the first to give a version. */
  method ProcessAttributes(s: Session, attrs: seq<Attribute>) returns (version: Option<string>)
    requires !s.fault
    modifies s
    ensures version == AttrPhase(attrs).version
    ensures s.diags == old(s.diags) + AttrPhase(attrs).diags
    ensures s.out == old(s.out) && !s.fault
  {
    ghost var d0 := s.diags;
    version := None;
    for i := 0 to |attrs|
      invariant version == AttrPhase(attrs[..i]).version
      invariant s.diags == d0 + AttrPhase(attrs[..i]).diags
      invariant s.out == old(s.out) && !s.fault
    {
      var a := attrs[i];
      if a.name == "version" {
        match ValueStr(a) {
          case Some(v) =>
            if version.Some? {
              s.SpanErr("version given twice");
            }
            version := Some(v);
          case None =>
            s.SpanErr("version not given");
        }
      } else {
        s.SpanErr("unknown attribute");
      }
      assert attrs[..i + 1][..i] == attrs[..i];
    }
    assert attrs[..|attrs|] == attrs;
  }

  /** The item loop: every item in order, up to the first fault. */
  method TranslateItems(s: Session, items: seq<Item>, bk: Backends)
    requires !s.fault
    modifies s
    ensures s.State() == old(s.State()).Then(ItemsOutput(items, bk))
  {
    ghost var s0 := s.State();
    for i := 0 to |items|
      invariant s.State() == s0.Then(ItemsOutput(items[..i], bk))
      invariant !s.fault
    {
      TranslateItem(s, items[i], bk);
      assert items[..i + 1][..i] == items[..i];
      ThenAssoc(s0, ItemsOutput(items[..i], bk), ItemOutput(items[i], bk));
      if s.fault {
        ItemsFaultStops(items, i + 1, bk);
        return;
      }
    }
    assert items[..|items|] == items;
  }

  /** The version is the value of the last `version = "…"` attribute, and
      there is none exactly when no attribute gives one. */
  lemma {:induction false} VersionIsLastGiven(attrs: seq<Attribute>)
    ensures AttrPhase(attrs).version.None? <==> forall i :: 0 <= i < |attrs| ==> !IsVersion(attrs[i])
    ensures forall j ::
      (0 <= j < |attrs| && IsVersion(attrs[j]) && forall i :: j < i < |attrs| ==> !IsVersion(attrs[i])) ==>
        AttrPhase(attrs).version == ValueStr(attrs[j])
    decreases |attrs|
  {
    if |attrs| > 0 {
      var init, last := attrs[..|attrs| - 1], attrs[|attrs| - 1];
      VersionIsLastGiven(init);
      assert forall i :: 0 <= i < |init| ==> attrs[i] == init[i];
    }
  }

  /** Every attribute records one diagnostic, except the first one that
      gives a version. */
  lemma {:induction false} AttrDiagnosticCount(attrs: seq<Attribute>)
    ensures |AttrPhase(attrs).diags| == |attrs| - if AttrPhase(attrs).version.Some? then 1 else 0
    decreases |attrs|
  {
    if |attrs| > 0 {
      AttrDiagnosticCount(attrs[..|attrs| - 1]);
    }
  }

  /** The attribute loop records nothing exactly when there is no attribute,
      or a single one that gives a version. */
  lemma AttrPhaseCleanIff(attrs: seq<Attribute>)
    ensures AttrPhase(attrs).diags == [] <==> |attrs| == 0 || (|attrs| == 1 && IsVersion(attrs[0]))
  {
    AttrDiagnosticCount(attrs);
    VersionIsLastGiven(attrs);
  }

  /** Whatever came before, a `version = "…"` after a version was chosen
      records "version given twice" and replaces the version. */
  lemma VersionGivenTwice(attrs: seq<Attribute>, a: Attribute)
    requires AttrPhase(attrs).version.Some? && IsVersion(a)
    ensures AttrPhase(attrs + [a]) ==
      AttrState(ValueStr(a), AttrPhase(attrs).diags + [SpanErr("version given twice")])
  {
    assert (attrs + [a])[..|attrs|] == attrs;
  }

  /** The first `version = "…"` chooses the version and records nothing. */
  lemma VersionChosen(attrs: seq<Attribute>, a: Attribute)
    requires AttrPhase(attrs).version.None? && IsVersion(a)
    ensures AttrPhase(attrs + [a]) == AttrState(ValueStr(a), AttrPhase(attrs).diags)
  {
    assert (attrs + [a])[..|attrs|] == attrs;
  }

  /** Whatever came before, an attribute that gives no version keeps the
      version chosen so far and records "version not given" when it is named
      `version`, and "unknown attribute" otherwise. */
  lemma AttributeRefused(attrs: seq<Attribute>, a: Attribute)
    requires !IsVersion(a)
    ensures AttrPhase(attrs + [a]) ==
      AttrState(AttrPhase(attrs).version,
                AttrPhase(attrs).diags +
                [SpanErr(if a.name == "version" then "version not given" else "unknown attribute")])
  {
    assert (attrs + [a])[..|attrs|] == attrs;
  }

  /** Two versions in a row: the second is reported and wins. */
  lemma TwoVersions(v1: string, v2: string)
    ensures var attrs := [Attribute("version", NameValue(Str(v1))), Attribute("version", NameValue(Str(v2)))];
      AttrPhase(attrs) == AttrState(Some(v2), [SpanErr("version given twice")])
  {
    var first := Attribute("version", NameValue(Str(v1)));
    VersionChosen([], first);
    VersionGivenTwice([first], Attribute("version", NameValue(Str(v2))));
  }

  /** Any diagnostic from the attributes aborts before any item is
      translated: the items and the translators cannot change the outcome. */
  lemma AttributeErrorsAbort(attrs: seq<Attribute>, items1: seq<Item>, bk1: Backends,
                             items2: seq<Item>, bk2: Backends)
    requires AttrPhase(attrs).diags != []
    ensures Translation(Crate(attrs, items1), bk1) == Translation(Crate(attrs, items2), bk2)
    ensures Translation(Crate(attrs, items1), bk1) == Aborted(AttrPhase(attrs).diags)
  {
  }

  /** A crate holding only `#![version = "v"]` translates to the line
      `#version v` followed by an empty line. */
  lemma VersionOnly(v: string, bk: Backends)
    ensures Translation(Crate([Attribute("version", NameValue(Str(v)))], []), bk) ==
      Translated("#version " + v + "\n\n")
  {
    var attrs := [Attribute("version", NameValue(Str(v)))];
    assert attrs[..0] == [];
    assert AttrPhase(attrs) == AttrState(Some(v), []);
    assert Emit("#version " + v + "\n\n").Then(Nothing).text == "#version " + v + "\n\n";
  }

  /** Items are printed after the preamble in the order they are declared. */
  lemma {:induction false} ItemsConcat(a: seq<Item>, b: seq<Item>, bk: Backends)
    ensures ItemsOutput(a + b, bk) == ItemsOutput(a, bk).Then(ItemsOutput(b, bk))
    decreases |b|
  {
    if |b| == 0 {
      assert a + b == a;
    } else {
      var init, last := b[..|b| - 1], b[|b| - 1];
      assert (a + b)[..|a + b| - 1] == a + init;
      assert (a + b)[|a + b| - 1] == last;
      ItemsConcat(a, init, bk);
      ThenAssoc(ItemsOutput(a, bk), ItemsOutput(init, bk), ItemOutput(last, bk));
    }
  }

  /** All or nothing: text comes back exactly when neither the attributes nor
      any item recorded a diagnostic and nothing faulted, and it is then the
      preamble followed by every item's text; without a version attribute
      there is no preamble. */
  lemma TranslatedIff(k: Crate, bk: Backends, glsl: string)
    ensures Translation(k, bk) == Translated(glsl) <==>
      AttrPhase(k.attrs).diags == [] && ItemsOutput(k.items, bk).Clean() &&
      glsl == Preamble(AttrPhase(k.attrs).version) + ItemsOutput(k.items, bk).text
    ensures k.attrs == [] ==> Preamble(AttrPhase(k.attrs).version) == ""
  {
  }

  /** Once macros are expanded, only the variable or function translator
      can make the driver panic. */
  lemma NoPanicWithoutMacros(k: Crate, bk: Backends)
    requires forall i :: 0 <= i < |k.items| ==> !k.items[i].kind.MacItem?
    requires forall a, n, t, x :: !bk.varTranslate(a, n, t, x).fault
    requires forall n, args, t, b :: !bk.fnTranslate(n, args, t, b).fault
    ensures Translation(k, bk) != Panicked
  {
    ItemsNoFault(k.items, bk);
  }

  lemma {:induction false} ItemsNoFault(items: seq<Item>, bk: Backends)
    requires forall i :: 0 <= i < |items| ==> !items[i].kind.MacItem?
    requires forall a, n, t, x :: !bk.varTranslate(a, n, t, x).fault
    requires forall n, args, t, b :: !bk.fnTranslate(n, args, t, b).fault
    ensures !ItemsOutput(items, bk).fault
    decreases |items|
  {
    if |items| > 0 {
      ItemsNoFault(items[..|items| - 1], bk);
      var it := items[|items| - 1];
      if it.kind.Fn? {
        FnDiagnostics(it, bk);
      }
    }
  }
}
