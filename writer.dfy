/** What a translator produces: text appended to the output buffer,
    diagnostics recorded in the session's handler, and whether it hit an
    internal fault (`span_bug`, which panics and so ends the walk). */
module Writer {

  /** A user diagnostic recorded with `span_err`; spans are not modelled. */
  datatype Diagnostic = SpanErr(message: string)

  datatype Output = Output(text: string, diags: seq<Diagnostic>, fault: bool) {

    /** Run `next` after this one, unless this one has already faulted. */
    function Then(next: Output): Output {
      if fault then this else Output(text + next.text, diags + next.diags, next.fault)
    }

    /** No fault and no diagnostic. */
    predicate Clean() {
      !fault && diags == []
    }
  }

  function Emit(s: string): Output {
    Output(s, [], false)
  }

  function Error(message: string): Output {
    Output("", [SpanErr(message)], false)
  }

  /** The effect of `span_bug(.., "macros should be gone by now")`. */
  const Bug: Output := Output("", [], true)

  const Nothing: Output := Emit("")

  lemma ThenAssoc(a: Output, b: Output, c: Output)
    ensures a.Then(b).Then(c) == a.Then(b.Then(c))
  {
  }

  /** Five steps taken one after the other from `s` are `s` followed by the
      five taken as one. */
  lemma ThenAssoc5(s: Output, a: Output, b: Output, c: Output, d: Output, f: Output)
    ensures s.Then(a).Then(b).Then(c).Then(d).Then(f) == s.Then(a.Then(b).Then(c).Then(d).Then(f))
  {
    ThenAssoc(s, a, b);
    ThenAssoc(s, a.Then(b), c);
    ThenAssoc(s, a.Then(b).Then(c), d);
    ThenAssoc(s, a.Then(b).Then(c).Then(d), f);
  }

  /** A step only appends: the text and the diagnostics already there are
      kept as they were. */
  lemma ThenExtends(a: Output, b: Output)
    ensures |a.text| <= |a.Then(b).text| && a.Then(b).text[..|a.text|] == a.text
    ensures |a.diags| <= |a.Then(b).diags| && a.Then(b).diags[..|a.diags|] == a.diags
  {
  }

  /** The diagnostic handler of the parse session together with the buffer
      `out` that every translator is handed as `&mut String`. */
  class Session {
    var out: string
    var diags: seq<Diagnostic>
    var fault: bool

    constructor ()
      ensures out == "" && diags == [] && !fault
    {
      out := "";
      diags := [];
      fault := false;
    }

    function State(): Output
      reads this
    {
      Output(out, diags, fault)
    }

    /** `write!(out, ..)` */
    method Write(s: string)
      requires !fault
      modifies this
      ensures State() == old(State()).Then(Emit(s))
    {
      out := out + s;
    }

    /** `diag.span_err(span, message)` */
    method SpanErr(message: string)
      requires !fault
      modifies this
      ensures State() == old(State()).Then(Error(message))
    {
      diags := diags + [Diagnostic.SpanErr(message)];
    }

    /** The effect of a translator outside this model, given by its output. */
    method Perform(effect: Output)
      requires !fault
      modifies this
      ensures State() == old(State()).Then(effect)
    {
      out := out + effect.text;
      diags := diags + effect.diags;
      fault := effect.fault;
    }

    /** `diag.span_bug(span, ..)` */
    method SpanBug()
      requires !fault
      modifies this
      ensures State() == old(State()).Then(Bug)
    {
      fault := true;
    }
  }
}
