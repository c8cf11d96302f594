/**
 * The output sink (`Formatter`) that templates drive, reduced to what a render
 * can observe: the calls it receives (write, push label, pop label), the label
 * stack those calls build, and whether each call succeeds. Styling and the
 * bytes actually written belong to the formatter, which is not part of this model.
 */
module Formatting {
  import opened Wrappers

  /** One call on the sink: `write_str`, `push_label` or `pop_label`. */
  datatype Event = Write(text: string) | Push(name: string) | Pop

  /** The label stack (outermost label first) after one call. */
  function Apply(stack: seq<string>, e: Event): seq<string>
  {
    match e
    case Write(_) => stack
    case Push(name) => stack + [name]
    case Pop => if |stack| == 0 then stack else stack[..|stack| - 1]
  }

  /** The label stack after a sequence of calls. */
  function StackAfter(stack: seq<string>, events: seq<Event>): seq<string>
    decreases |events|
  {
    if events == [] then stack else StackAfter(Apply(stack, events[0]), events[1..])
  }

  /** The calls that push `labels` in list order. */
  function Pushes(labels: seq<string>): seq<Event>
  {
    seq(|labels|, i requires 0 <= i < |labels| => Push(labels[i]))
  }

  /** `n` pops. */
  function Pops(n: nat): seq<Event>
  {
    seq(n, _ => Pop)
  }

  /** The text the calls write, in order: what a plain-text sink accumulates. */
  function Text(events: seq<Event>): string
    decreases |events|
  {
    if events == [] then ""
    else (if events[0].Write? then events[0].text else "") + Text(events[1..])
  }

  lemma {:induction false} StackAfterAppend(stack: seq<string>, a: seq<Event>, b: seq<Event>)
    ensures StackAfter(stack, a + b) == StackAfter(StackAfter(stack, a), b)
    decreases |a|
  {
    if a == [] {
      assert a + b == b;
    } else {
      assert (a + b)[1..] == a[1..] + b;
      StackAfterAppend(Apply(stack, a[0]), a[1..], b);
    }
  }

  /** Pushing `labels` extends the stack by exactly `labels`. */
  lemma {:induction false} StackAfterPushes(stack: seq<string>, labels: seq<string>)
    ensures StackAfter(stack, Pushes(labels)) == stack + labels
    decreases |labels|
  {
    if labels == [] {
      assert stack + labels == stack;
    } else {
      assert Pushes(labels)[1..] == Pushes(labels[1..]);
      StackAfterPushes(stack + [labels[0]], labels[1..]);
      assert stack + [labels[0]] + labels[1..] == stack + labels;
    }
  }

  /** Popping `|labels|` times removes exactly the `labels` pushed last. */
  lemma {:induction false} StackAfterPops(stack: seq<string>, labels: seq<string>)
    ensures StackAfter(stack + labels, Pops(|labels|)) == stack
    decreases |labels|
  {
    if labels == [] {
      assert stack + labels == stack;
    } else {
      var n := |labels|;
      assert (stack + labels)[..|stack + labels| - 1] == stack + labels[..n - 1];
      assert Pops(n)[1..] == Pops(n - 1);
      StackAfterPops(stack, labels[..n - 1]);
    }
  }

  lemma {:induction false} TextAppend(a: seq<Event>, b: seq<Event>)
    ensures Text(a + b) == Text(a) + Text(b)
    decreases |a|
  {
    if a == [] {
      assert a + b == b;
    } else {
      assert (a + b)[1..] == a[1..] + b;
      TextAppend(a[1..], b);
    }
  }

  /** Label pushes and pops write no text. */
  lemma {:induction false} TextOfLabelCalls(labels: seq<string>, n: nat)
    ensures Text(Pushes(labels)) == "" && Text(Pops(n)) == ""
    decreases |labels| + n
  {
    if labels != [] {
      assert Pushes(labels)[1..] == Pushes(labels[1..]);
      TextOfLabelCalls(labels[1..], n);
    }
    if n > 0 {
      assert Pops(n)[1..] == Pops(n - 1);
      TextOfLabelCalls([], n - 1);
    }
  }

  // ------------------------------------------------------------------
  // Success and failure of sink calls

  /** How many of `n` calls a sink with `quota` performs before one fails;
      `None` is a sink that never fails. */
  function Admitted(quota: Option<nat>, n: nat): nat
  {
    if quota.None? || n <= quota.value then n else quota.value
  }

  function Spend(quota: Option<nat>, k: nat): Option<nat>
    requires quota.Some? ==> k <= quota.value
  {
    if quota.None? then None else Some(quota.value - k)
  }

  datatype SinkState = SinkState(stack: seq<string>, log: seq<Event>, quota: Option<nat>)

  /** The sink's state after a call or a render, and whether it succeeded. */
  datatype Outcome = Outcome(state: SinkState, ok: bool)

  /** One sink call: it fails, with no effect, once the quota is used up. */
  function Step(st: SinkState, e: Event): Outcome
  {
    if st.quota == Some(0) then Outcome(st, false)
    else Outcome(SinkState(Apply(st.stack, e), st.log + [e], Spend(st.quota, 1)), true)
  }

  /** A sequence of calls where every call is guarded by `?`: the first
      failure ends the sequence and is returned. */
  function Exec(st: SinkState, events: seq<Event>): Outcome
    decreases |events|
  {
    if events == [] then Outcome(st, true)
    else
      var o := Step(st, events[0]);
      if o.ok then Exec(o.state, events[1..]) else o
  }

  /** Running `a + b` is running `a`, then `b` only if `a` succeeded. */
  lemma {:induction false} ExecAppend(st: SinkState, a: seq<Event>, b: seq<Event>)
    ensures Exec(st, a + b) == (var o := Exec(st, a); if o.ok then Exec(o.state, b) else o)
    decreases |a|
  {
    if a == [] {
      assert a + b == b;
    } else {
      assert (a + b)[0] == a[0];
      assert (a + b)[1..] == a[1..] + b;
      var o := Step(st, a[0]);
      if o.ok {
        ExecAppend(o.state, a[1..], b);
      }
    }
  }

  /** Fail fast, no rollback: a run performs exactly the first `Admitted`
      calls (all of them iff it succeeds) and then stops. */
  lemma {:induction false} ExecPerformsAdmittedPrefix(st: SinkState, events: seq<Event>)
    ensures var k := Admitted(st.quota, |events|);
            var o := Exec(st, events);
            && (o.ok <==> k == |events|)
            && o.state == SinkState(StackAfter(st.stack, events[..k]), st.log + events[..k], Spend(st.quota, k))
    decreases |events|
  {
    if events == [] {
    } else if st.quota == Some(0) {
      assert events[..0] == [];
    } else {
      var o := Step(st, events[0]);
      ExecPerformsAdmittedPrefix(o.state, events[1..]);
      var k' := Admitted(o.state.quota, |events| - 1);
      assert Admitted(st.quota, |events|) == k' + 1;
      assert events[..k' + 1] == [events[0]] + events[1..][..k'];
      assert events[..k' + 1][1..] == events[1..][..k'];
    }
  }

  /** A sink that never fails performs every call. */
  lemma ExecUnlimited(st: SinkState, events: seq<Event>)
    requires st.quota.None?
    ensures Exec(st, events) == Outcome(SinkState(StackAfter(st.stack, events), st.log + events, None), true)
  {
    ExecPerformsAdmittedPrefix(st, events);
    assert events[..|events|] == events;
  }

  lemma ExecExtend(st: SinkState, events: seq<Event>, e: Event)
    ensures Exec(st, events + [e]) == (var o := Exec(st, events); if o.ok then Step(o.state, e) else o)
  {
    ExecAppend(st, events, [e]);
  }

  /** Once a prefix of the calls has failed, the rest are never made. */
  lemma ExecFailedPrefix(st: SinkState, events: seq<Event>, n: nat)
    requires n <= |events| && !Exec(st, events[..n]).ok
    ensures Exec(st, events) == Exec(st, events[..n])
  {
    assert events == events[..n] + events[n..];
    ExecAppend(st, events[..n], events[n..]);
  }

  /** The sink: a label stack, the log of calls it performed, and a quota of
      calls after which every call fails (`None`: it never fails). */
  class Sink {
    var stack: seq<string>
    var log: seq<Event>
    var quota: Option<nat>

    function State(): SinkState
      reads this
    {
      SinkState(stack, log, quota)
    }

    constructor (quota: Option<nat>)
      ensures State() == SinkState([], [], quota)
    {
      stack := [];
      log := [];
      this.quota := quota;
    }

    method WriteStr(text: string) returns (ok: bool)
      modifies this
      ensures Outcome(State(), ok) == Step(old(State()), Write(text))
    {
      ok := quota != Some(0);
      if ok {
        log := log + [Write(text)];
        quota := Spend(quota, 1);
      }
    }

    method PushLabel(name: string) returns (ok: bool)
      modifies this
      ensures Outcome(State(), ok) == Step(old(State()), Push(name))
    {
      ok := quota != Some(0);
      if ok {
        stack := stack + [name];
        log := log + [Push(name)];
        quota := Spend(quota, 1);
      }
    }

    method PopLabel() returns (ok: bool)
      modifies this
      ensures Outcome(State(), ok) == Step(old(State()), Pop)
    {
      ok := quota != Some(0);
      if ok {
        if |stack| > 0 {
          stack := stack[..|stack| - 1];
        }
        log := log + [Pop];
        quota := Spend(quota, 1);
      }
    }
  }

  /** Pushes `labels` in list order, stopping at the first failure. */
  method PushLabels(labels: seq<string>, sink: Sink) returns (ok: bool)
    modifies sink
    ensures Outcome(sink.State(), ok) == Exec(old(sink.State()), Pushes(labels))
  {
    ghost var st0 := sink.State();
    ok := true;
    var i := 0;
    while i < |labels|
      invariant 0 <= i <= |labels|
      invariant Exec(st0, Pushes(labels[..i])) == Outcome(sink.State(), true)
    {
      ok := sink.PushLabel(labels[i]);
      assert Pushes(labels[..i + 1]) == Pushes(labels[..i]) + [Push(labels[i])];
      ExecExtend(st0, Pushes(labels[..i]), Push(labels[i]));
      if !ok {
        assert Pushes(labels)[..i + 1] == Pushes(labels[..i + 1]);
        ExecFailedPrefix(st0, Pushes(labels), i + 1);
        return;
      }
      i := i + 1;
    }
    assert labels[..i] == labels;
  }

  /** Pops `n` labels, stopping at the first failure. */
  method PopLabels(n: nat, sink: Sink) returns (ok: bool)
    modifies sink
    ensures Outcome(sink.State(), ok) == Exec(old(sink.State()), Pops(n))
  {
    ghost var st0 := sink.State();
    ok := true;
    var i := 0;
    while i < n
      invariant 0 <= i <= n
      invariant Exec(st0, Pops(i)) == Outcome(sink.State(), true)
    {
      ok := sink.PopLabel();
      assert Pops(i + 1) == Pops(i) + [Pop];
      ExecExtend(st0, Pops(i), Pop);
      if !ok {
        assert Pops(n)[..i + 1] == Pops(i + 1);
        ExecFailedPrefix(st0, Pops(n), i + 1);
        return;
      }
      i := i + 1;
    }
  }
}
