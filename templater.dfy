/**
 * The template algebra: a closed sum of the template kinds, what each one
 * asks of the sink (`Trace`), and the recursive `Format` that drives a `Sink`.
 * Properties are functions from the context to a value.
 */
module Templater {
  import opened Wrappers
  import opened Formatting
  import opened FormattedStrings

  datatype Template<!C> =
    | Literal(text: string)
    | Label(content: Template<C>, labels: seq<string>)
    | DynamicLabel(content: Template<C>, labelProperty: C -> seq<string>)
    | List(templates: seq<Template<C>>)
    | StringProperty(property: C -> string)
    | FormattedStringProperty(fsProperty: C -> FormattedString)
    | Conditional(condition: C -> bool, trueTemplate: Template<C>, falseTemplate: Option<Template<C>>)

  /** The sink calls a template makes in context `ctx` when none of them fails. */
  function Trace<C>(t: Template<C>, ctx: C): seq<Event>
    decreases t
  {
    match t
    case Literal(text) => [Write(text)]
    case Label(content, labels) => Pushes(labels) + Trace(content, ctx) + Pops(|labels|)
    case DynamicLabel(content, labelProperty) =>
      var labels := labelProperty(ctx);
      Pushes(labels) + Trace(content, ctx) + Pops(|labels|)
    case List(templates) => ListTrace(templates, ctx)
    case StringProperty(property) => [Write(property(ctx))]
    case FormattedStringProperty(fsProperty) => FsTrace(fsProperty(ctx))
    case Conditional(condition, trueTemplate, falseTemplate) =>
      if condition(ctx) then Trace(trueTemplate, ctx)
      else if falseTemplate.Some? then Trace(falseTemplate.value, ctx)
      else []
  }

  function ListTrace<C>(ts: seq<Template<C>>, ctx: C): seq<Event>
    decreases ts
  {
    if ts == [] then [] else ListTrace(ts[..|ts| - 1], ctx) + Trace(ts[|ts| - 1], ctx)
  }

  /** `FormattedString::to_template` */
  function ToTemplate(fs: FormattedString): Template<()>
    decreases fs
  {
    match fs
    case Plain(text) => Literal(text)
    case Labeled(str, labels) => Label(ToTemplate(str), labels)
    case Concat(strs) => List(seq(|strs|, i requires 0 <= i < |strs| => ToTemplate(strs[i])))
  }

  /** `TemplateFunction`: a property followed by a function of its value. The
      function sees only the inner property's value, never the context. */
  function TemplateFunction<C(!new), I(==), O>(property: C -> I, f: I -> O): (r: C -> O)
    ensures forall c :: r(c) == f(property(c))
    ensures forall c1, c2 :: property(c1) == property(c2) ==> r(c1) == r(c2)
  {
    c => f(property(c))
  }

  // ------------------------------------------------------------------
  // Rendering

  /** `Template::format`: drives the sink through the template's calls, each
      guarded by `?`, so the first failing call ends the render. */
  method Format<C>(t: Template<C>, ctx: C, sink: Sink) returns (ok: bool)
    modifies sink
    ensures Outcome(sink.State(), ok) == Exec(old(sink.State()), Trace(t, ctx))
    decreases t, 0
  {
    match t
    case Literal(text) =>
      ok := sink.WriteStr(text);
      ExecExtend(old(sink.State()), [], Write(text));
    case Label(content, labels) =>
      ok := FormatLabeled(content, labels, ctx, sink);
    case DynamicLabel(content, labelProperty) =>
      var labels := labelProperty(ctx);
      ok := FormatLabeled(content, labels, ctx, sink);
    case List(templates) =>
      ok := FormatList(templates, ctx, sink);
    case StringProperty(property) =>
      var text := property(ctx);
      ok := sink.WriteStr(text);
      ExecExtend(old(sink.State()), [], Write(text));
    case FormattedStringProperty(fsProperty) =>
      var text := fsProperty(ctx);
      ok := FormatString(text, sink);
    case Conditional(condition, trueTemplate, falseTemplate) =>
      if condition(ctx) {
        ok := Format(trueTemplate, ctx, sink);
      } else if falseTemplate.Some? {
        ok := Format(falseTemplate.value, ctx, sink);
      } else {
        ok := true;
      }
  }

  /** The body shared by `LabelTemplate` and `DynamicLabelTemplate`: push the
      labels, format the content, pop as many labels. An error returns at
      once, without popping what was pushed. */
  method FormatLabeled<C>(content: Template<C>, labels: seq<string>, ctx: C, sink: Sink) returns (ok: bool)
    modifies sink
    ensures Outcome(sink.State(), ok) == Exec(old(sink.State()), Pushes(labels) + Trace(content, ctx) + Pops(|labels|))
    decreases content, 1
  {
    ghost var st0 := sink.State();
    ExecAppend(st0, Pushes(labels) + Trace(content, ctx), Pops(|labels|));
    ExecAppend(st0, Pushes(labels), Trace(content, ctx));
    ok := PushLabels(labels, sink);
    if !ok {
      return;
    }
    ok := Format(content, ctx, sink);
    if !ok {
      return;
    }
    ok := PopLabels(|labels|, sink);
  }

  /** `ListTemplate::format`: the children in order, stopping at the first error. */
  method FormatList<C>(templates: seq<Template<C>>, ctx: C, sink: Sink) returns (ok: bool)
    modifies sink
    ensures Outcome(sink.State(), ok) == Exec(old(sink.State()), ListTrace(templates, ctx))
    decreases templates, 1
  {
    ghost var st0 := sink.State();
    ok := true;
    var i := 0;
    while i < |templates|
      invariant 0 <= i <= |templates|
      invariant Exec(st0, ListTrace(templates[..i], ctx)) == Outcome(sink.State(), true)
    {
      assert templates[..i + 1][..i] == templates[..i];
      ok := Format(templates[i], ctx, sink);
      ExecAppend(st0, ListTrace(templates[..i], ctx), Trace(templates[i], ctx));
      if !ok {
        ListTraceSplit(templates, ctx, i + 1);
        ExecAppend(st0, ListTrace(templates[..i + 1], ctx), ListTrace(templates[i + 1..], ctx));
        return;
      }
      i := i + 1;
    }
    assert templates[..i] == templates;
  }

  /** `FormattedString::format`, i.e. `to_template()` formatted in the unit context. */
  method FormatString(fs: FormattedString, sink: Sink) returns (ok: bool)
    modifies sink
    ensures Outcome(sink.State(), ok) == Exec(old(sink.State()), FsTrace(fs))
    ensures Outcome(sink.State(), ok) == Exec(old(sink.State()), Trace(ToTemplate(fs), ()))
    decreases fs
  {
    ToTemplateTrace(fs);
    ghost var st0 := sink.State();
    match fs
    case Plain(text) =>
      ok := sink.WriteStr(text);
      ExecExtend(st0, [], Write(text));
    case Labeled(str, labels) =>
      ExecAppend(st0, Pushes(labels) + FsTrace(str), Pops(|labels|));
      ExecAppend(st0, Pushes(labels), FsTrace(str));
      ok := PushLabels(labels, sink);
      if !ok {
        return;
      }
      ok := FormatString(str, sink);
      if !ok {
        return;
      }
      ok := PopLabels(|labels|, sink);
    case Concat(strs) =>
      ok := true;
      var i := 0;
      while i < |strs|
        invariant 0 <= i <= |strs|
        invariant Exec(st0, FsTraceList(strs[..i])) == Outcome(sink.State(), true)
      {
        assert strs[..i + 1][..i] == strs[..i];
        ok := FormatString(strs[i], sink);
        ExecAppend(st0, FsTraceList(strs[..i]), FsTrace(strs[i]));
        if !ok {
          FsTraceListSplit(strs, i + 1);
          ExecAppend(st0, FsTraceList(strs[..i + 1]), FsTraceList(strs[i + 1..]));
          return;
        }
        i := i + 1;
      }
      assert strs[..i] == strs;
  }

  /** `From<FormattedString> for String`: render to a sink that never fails
      and keep the text written. */
  method IntoString(fs: FormattedString) returns (s: string)
    ensures s == Flatten(Leaves(fs))
    ensures s == "" <==> IsEmpty(fs)
  {
    var sink := new Sink(None);
    var ok := Format(ToTemplate(fs), (), sink);
    ToTemplateTrace(fs);
    ExecUnlimited(SinkState([], [], None), FsTrace(fs));
    s := Text(sink.log);
    assert sink.log == FsTrace(fs);
    TextOfRender(fs);
    IsEmptyIffRendersNoText(fs);
  }

  // ------------------------------------------------------------------
  // Lemmas

  lemma {:induction false} ListTraceSplit<C>(ts: seq<Template<C>>, ctx: C, k: nat)
    requires k <= |ts|
    ensures ListTrace(ts, ctx) == ListTrace(ts[..k], ctx) + ListTrace(ts[k..], ctx)
    decreases |ts|
  {
    if k == |ts| {
      assert ts[..k] == ts;
      assert ts[k..] == [];
    } else {
      var n := |ts|;
      ListTraceSplit(ts[..n - 1], ctx, k);
      assert ts[..n - 1][..k] == ts[..k];
      assert ts[k..][..|ts[k..]| - 1] == ts[..n - 1][k..];
      assert ts[k..][|ts[k..]| - 1] == ts[n - 1];
    }
  }

  lemma {:induction false} FsTraceListSplit(strs: seq<FormattedString>, k: nat)
    requires k <= |strs|
    ensures FsTraceList(strs) == FsTraceList(strs[..k]) + FsTraceList(strs[k..])
    decreases |strs|
  {
    if k == |strs| {
      assert strs[..k] == strs;
      assert strs[k..] == [];
    } else {
      var n := |strs|;
      FsTraceListSplit(strs[..n - 1], k);
      assert strs[..n - 1][..k] == strs[..k];
      assert strs[k..][..|strs[k..]| - 1] == strs[..n - 1][k..];
      assert strs[k..][|strs[k..]| - 1] == strs[n - 1];
    }
  }

  /** `to_template` preserves the render: formatting the converted template
      makes the same calls as rendering the tree. */
  lemma {:induction false} ToTemplateTrace(fs: FormattedString)
    ensures Trace(ToTemplate(fs), ()) == FsTrace(fs)
    decreases fs, 0
  {
    match fs
    case Plain(_) =>
    case Labeled(str, _) => ToTemplateTrace(str);
    case Concat(strs) =>
      var ts := seq(|strs|, i requires 0 <= i < |strs| => ToTemplate(strs[i]));
      ToTemplateListTrace(strs, |strs|);
      assert ts[..|strs|] == ts && strs[..|strs|] == strs;
  }

  lemma {:induction false} ToTemplateListTrace(strs: seq<FormattedString>, n: nat)
    requires n <= |strs|
    ensures ListTrace(seq(|strs|, i requires 0 <= i < |strs| => ToTemplate(strs[i]))[..n], ())
         == FsTraceList(strs[..n])
    decreases strs, n
  {
    var ts := seq(|strs|, i requires 0 <= i < |strs| => ToTemplate(strs[i]));
    if n > 0 {
      ToTemplateListTrace(strs, n - 1);
      assert ts[..n][..n - 1] == ts[..n - 1];
      assert strs[..n][..n - 1] == strs[..n - 1];
      ToTemplateTrace(strs[n - 1]);
    }
    if n == |strs| {
      assert ts[..n] == ts;
      assert strs[..n] == strs;
    }
  }

  /** A successful render of any template returns the label stack to where
      it was. */
  lemma {:induction false} TraceIsBalanced<C>(t: Template<C>, ctx: C, stack: seq<string>)
    ensures StackAfter(stack, Trace(t, ctx)) == stack
    decreases t, 0
  {
    match t
    case Literal(_) =>
    case Label(content, labels) =>
      LabeledIsBalanced(content, labels, ctx, stack);
    case DynamicLabel(content, labelProperty) =>
      LabeledIsBalanced(content, labelProperty(ctx), ctx, stack);
    case List(templates) =>
      ListTraceIsBalanced(templates, ctx, stack);
    case StringProperty(_) =>
    case FormattedStringProperty(fsProperty) =>
      RenderIsBalanced(fsProperty(ctx), stack);
    case Conditional(condition, trueTemplate, falseTemplate) =>
      if condition(ctx) {
        TraceIsBalanced(trueTemplate, ctx, stack);
      } else if falseTemplate.Some? {
        TraceIsBalanced(falseTemplate.value, ctx, stack);
      }
  }

  /** Within a labelled template the content runs on the old stack plus the
      labels, and the pops bring the stack back. */
  lemma {:induction false} LabeledIsBalanced<C>(content: Template<C>, labels: seq<string>, ctx: C, stack: seq<string>)
    ensures StackAfter(stack, Pushes(labels)) == stack + labels
    ensures StackAfter(stack, Pushes(labels) + Trace(content, ctx) + Pops(|labels|)) == stack
    decreases content, 1
  {
    var pushes, body, pops := Pushes(labels), Trace(content, ctx), Pops(|labels|);
    StackAfterPushes(stack, labels);
    TraceIsBalanced(content, ctx, stack + labels);
    StackAfterPops(stack, labels);
    calc {
      StackAfter(stack, pushes + body + pops);
      { StackAfterAppend(stack, pushes + body, pops); }
      StackAfter(StackAfter(stack, pushes + body), pops);
      { StackAfterAppend(stack, pushes, body); }
      StackAfter(StackAfter(StackAfter(stack, pushes), body), pops);
      StackAfter(stack + labels, pops);
      stack;
    }
  }

  lemma {:induction false} ListTraceIsBalanced<C>(ts: seq<Template<C>>, ctx: C, stack: seq<string>)
    ensures StackAfter(stack, ListTrace(ts, ctx)) == stack
    decreases ts
  {
    if ts != [] {
      var n := |ts|;
      StackAfterAppend(stack, ListTrace(ts[..n - 1], ctx), Trace(ts[n - 1], ctx));
      ListTraceIsBalanced(ts[..n - 1], ctx, stack);
      TraceIsBalanced(ts[n - 1], ctx, stack);
    }
  }

  /** A successful `LabelTemplate` render leaves the stack unchanged and logs
      the pushes in list order, then the content's calls, then `|labels|` pops;
      the content's calls start on the old stack extended by the labels. */
  lemma LabelFormatOnSuccess<C>(content: Template<C>, labels: seq<string>, ctx: C, st: SinkState)
    requires Exec(st, Trace(Label(content, labels), ctx)).ok
    ensures var o := Exec(st, Trace(Label(content, labels), ctx));
            && o.state.stack == st.stack
            && o.state.log == st.log + Pushes(labels) + Trace(content, ctx) + Pops(|labels|)
    ensures Exec(st, Pushes(labels)).ok && Exec(st, Pushes(labels)).state.stack == st.stack + labels
  {
    var es := Pushes(labels) + Trace(content, ctx) + Pops(|labels|);
    ExecPerformsAdmittedPrefix(st, es);
    assert es[..|es|] == es;
    LabeledIsBalanced(content, labels, ctx, st.stack);
    ExecAppend(st, Pushes(labels), Trace(content, ctx) + Pops(|labels|));
    ExecPerformsAdmittedPrefix(st, Pushes(labels));
    assert Pushes(labels)[..|Pushes(labels)|] == Pushes(labels);
    StackAfterPushes(st.stack, labels);
  }

  /** `DynamicLabelTemplate` behaves as a `LabelTemplate` with the labels the
      property gives in this context. */
  lemma DynamicLabelFormatOnSuccess<C>(content: Template<C>, labelProperty: C -> seq<string>, ctx: C, st: SinkState)
    requires Exec(st, Trace(DynamicLabel(content, labelProperty), ctx)).ok
    ensures var o := Exec(st, Trace(DynamicLabel(content, labelProperty), ctx));
            var labels := labelProperty(ctx);
            && o.state.stack == st.stack
            && o.state.log == st.log + Pushes(labels) + Trace(content, ctx) + Pops(|labels|)
    ensures Exec(st, Pushes(labelProperty(ctx))).ok
            && Exec(st, Pushes(labelProperty(ctx))).state.stack == st.stack + labelProperty(ctx)
  {
    assert Trace(DynamicLabel(content, labelProperty), ctx) == Trace(Label(content, labelProperty(ctx)), ctx);
    LabelFormatOnSuccess(content, labelProperty(ctx), ctx, st);
  }

  /** An error inside the content propagates without popping: rendering
      `Label(Literal("x"), ["a"])` on a sink that accepts two calls leaves
      the label `a` on the stack. */
  lemma LabelFormatErrorLeavesLabels()
    ensures var o := Exec(SinkState([], [], Some(2)), Trace(Label(Literal("x"), ["a"]), ()));
            !o.ok && o.state.stack == ["a"] && o.state.log == [Push("a"), Write("x")]
  {
    var es := Trace(Label(Literal("x"), ["a"]), ());
    assert es == [Push("a"), Write("x"), Pop];
  }

  /** When the pushes succeed but the content fails, a label render ends
      exactly where the content's render ends: the error returns through `?`
      and none of the labels is popped. */
  lemma LabelFormatErrorPropagates<C>(content: Template<C>, labels: seq<string>, ctx: C, st: SinkState)
    requires Exec(st, Pushes(labels)).ok
    requires !Exec(Exec(st, Pushes(labels)).state, Trace(content, ctx)).ok
    ensures Exec(st, Trace(Label(content, labels), ctx)) == Exec(Exec(st, Pushes(labels)).state, Trace(content, ctx))
  {
    ExecAppend(st, Pushes(labels) + Trace(content, ctx), Pops(|labels|));
    ExecAppend(st, Pushes(labels), Trace(content, ctx));
  }

  /** `ListTemplate` stops at the first child that fails: nothing of the
      later children reaches the sink. */
  lemma ListStopsAtFirstError<C>(ts: seq<Template<C>>, ctx: C, st: SinkState, i: nat)
    requires i < |ts|
    requires Exec(st, ListTrace(ts[..i], ctx)).ok
    requires !Exec(Exec(st, ListTrace(ts[..i], ctx)).state, Trace(ts[i], ctx)).ok
    ensures Exec(st, Trace(List(ts), ctx)) == Exec(Exec(st, ListTrace(ts[..i], ctx)).state, Trace(ts[i], ctx))
  {
    assert ts[..i + 1][..i] == ts[..i];
    ListTraceSplit(ts, ctx, i + 1);
    ExecAppend(st, ListTrace(ts[..i + 1], ctx), ListTrace(ts[i + 1..], ctx));
    ExecAppend(st, ListTrace(ts[..i], ctx), Trace(ts[i], ctx));
  }

  /** `ConditionalTemplate` renders the true branch iff the condition holds,
      otherwise the false branch if there is one, otherwise nothing at all. */
  lemma ConditionalFormat<C>(condition: C -> bool, tt: Template<C>, ft: Option<Template<C>>, ctx: C, st: SinkState)
    ensures condition(ctx) ==> Exec(st, Trace(Conditional(condition, tt, ft), ctx)) == Exec(st, Trace(tt, ctx))
    ensures !condition(ctx) && ft.Some? ==> Exec(st, Trace(Conditional(condition, tt, ft), ctx)) == Exec(st, Trace(ft.value, ctx))
    ensures !condition(ctx) && ft.None? ==> Exec(st, Trace(Conditional(condition, tt, ft), ctx)) == Outcome(st, true)
  {
  }
}
