/**
 * `FormattedString`: an immutable tree of plain text, labelled subtrees and
 * concatenations, and its pure operations.
 */
module FormattedStrings {
  import opened Formatting

  datatype FormattedString =
    | Plain(text: string)
    | Labeled(str: FormattedString, labels: seq<string>)
    | Concat(strs: seq<FormattedString>)

  /** `FormattedString::default()`: the tree of the empty string. */
  function Default(): (r: FormattedString)
    ensures IsEmpty(r) && Leaves(r) == [""]
  {
    Plain("")
  }

  /** The new label becomes the outermost label of the whole tree: on a
      labelled node it goes to the front of the label list, anything else
      is wrapped in a node labelled with it alone. */
  function PrependLabel(fs: FormattedString, name: string): (r: FormattedString)
    ensures r.Labeled? && |r.labels| >= 1 && r.labels[0] == name
    ensures fs.Labeled? ==> r.str == fs.str && r.labels[1..] == fs.labels
    ensures !fs.Labeled? ==> r.str == fs && r.labels == [name]
  {
    match fs
    case Labeled(str, labels) => Labeled(str, [name] + labels)
    case _ => Labeled(fs, [name])
  }

  predicate IsEmpty(fs: FormattedString)
    decreases fs
  {
    match fs
    case Plain(text) => text == ""
    case Labeled(str, _) => IsEmpty(str)
    case Concat(strs) => AllEmpty(strs)
  }

  /** Every element of the list is empty. */
  predicate AllEmpty(strs: seq<FormattedString>)
    decreases strs
  {
    strs == [] || (IsEmpty(strs[0]) && AllEmpty(strs[1..]))
  }

  /** The text leaves of the tree, left to right. */
  function Leaves(fs: FormattedString): seq<string>
    decreases fs
  {
    match fs
    case Plain(text) => [text]
    case Labeled(str, _) => Leaves(str)
    case Concat(strs) => LeavesOf(strs)
  }

  function LeavesOf(strs: seq<FormattedString>): seq<string>
    decreases strs
  {
    if strs == [] then [] else LeavesOf(strs[..|strs| - 1]) + Leaves(strs[|strs| - 1])
  }

  /** The leaves' texts, concatenated. */
  function Flatten(texts: seq<string>): string
  {
    if texts == [] then "" else Flatten(texts[..|texts| - 1]) + texts[|texts| - 1]
  }

  /** `FormattedString::join`: the elements interspersed with the separator. */
  function Join(xs: seq<FormattedString>, sep: FormattedString): (r: FormattedString)
    ensures r.Concat? && |r.strs| == if |xs| == 0 then 0 else 2 * |xs| - 1
  {
    IntersperseLength(xs, sep);
    Concat(Intersperse(xs, sep))
  }

  function Intersperse(xs: seq<FormattedString>, sep: FormattedString): seq<FormattedString>
  {
    if |xs| <= 1 then xs else [xs[0], sep] + Intersperse(xs[1..], sep)
  }

  /** The sink calls that rendering a tree makes (the tree converted with
      `to_template` and formatted): a leaf writes its text, a labelled node
      pushes its labels in order, renders its child and pops as many labels,
      a concatenation renders its elements in order. */
  function FsTrace(fs: FormattedString): seq<Event>
    decreases fs
  {
    match fs
    case Plain(text) => [Write(text)]
    case Labeled(str, labels) => Pushes(labels) + FsTrace(str) + Pops(|labels|)
    case Concat(strs) => FsTraceList(strs)
  }

  function FsTraceList(strs: seq<FormattedString>): seq<Event>
    decreases strs
  {
    if strs == [] then [] else FsTraceList(strs[..|strs| - 1]) + FsTrace(strs[|strs| - 1])
  }

  // ------------------------------------------------------------------
  // Emptiness

  /** A concatenation is empty iff each of its elements is. */
  lemma {:induction false} ConcatIsEmpty(xs: seq<FormattedString>)
    ensures IsEmpty(Concat(xs)) <==> forall i :: 0 <= i < |xs| ==> IsEmpty(xs[i])
    decreases |xs|
  {
    if xs != [] {
      ConcatIsEmpty(xs[1..]);
      assert forall i :: 1 <= i < |xs| ==> xs[i] == xs[1..][i - 1];
    }
  }

  lemma ConcatPairIsEmpty(a: FormattedString, b: FormattedString)
    ensures IsEmpty(Concat([a, b])) == (IsEmpty(a) && IsEmpty(b))
  {
    ConcatIsEmpty([a, b]);
    assert [a, b][0] == a && [a, b][1] == b;
  }

  /** Labelling never changes emptiness. */
  lemma PrependLabelKeepsEmptiness(fs: FormattedString, name: string)
    ensures IsEmpty(PrependLabel(fs, name)) == IsEmpty(fs)
  {
  }

  /** Every text in the sequence is the empty string. */
  ghost predicate AllBlank(texts: seq<string>)
  {
    forall i :: 0 <= i < |texts| ==> texts[i] == ""
  }

  lemma AllBlankAppend(a: seq<string>, b: seq<string>)
    ensures AllBlank(a + b) <==> AllBlank(a) && AllBlank(b)
  {
    if AllBlank(a) && AllBlank(b) {
      forall i | 0 <= i < |a + b| ensures (a + b)[i] == "" {
        if i >= |a| { assert (a + b)[i] == b[i - |a|]; }
      }
    }
    if AllBlank(a + b) {
      forall i | 0 <= i < |a| ensures a[i] == "" {
        assert (a + b)[i] == a[i];
      }
      forall i | 0 <= i < |b| ensures b[i] == "" {
        assert (a + b)[|a| + i] == b[i];
      }
    }
  }

  /** A tree is empty iff every text leaf in it is the empty string. */
  lemma {:induction false} IsEmptyIffLeavesEmpty(fs: FormattedString)
    ensures IsEmpty(fs) <==> AllBlank(Leaves(fs))
    decreases fs
  {
    match fs
    case Plain(text) =>
      assert Leaves(fs)[0] == text;
    case Labeled(str, _) => IsEmptyIffLeavesEmpty(str);
    case Concat(strs) =>
      AllEmptyIffLeavesEmpty(strs);
      assert IsEmpty(fs) == AllEmpty(strs) && Leaves(fs) == LeavesOf(strs);
  }

  lemma {:induction false} AllEmptyIffLeavesEmpty(strs: seq<FormattedString>)
    ensures AllEmpty(strs) <==> AllBlank(LeavesOf(strs))
    decreases strs
  {
    if strs != [] {
      var n := |strs|;
      AllEmptyIffLeavesEmpty(strs[..n - 1]);
      IsEmptyIffLeavesEmpty(strs[n - 1]);
      AllEmptySplit(strs);
      AllBlankAppend(LeavesOf(strs[..n - 1]), Leaves(strs[n - 1]));
    }
  }

  /** `AllEmpty` looks at the head; this views it from the last element. */
  lemma {:induction false} AllEmptySplit(strs: seq<FormattedString>)
    requires strs != []
    ensures AllEmpty(strs) == (AllEmpty(strs[..|strs| - 1]) && IsEmpty(strs[|strs| - 1]))
    decreases |strs|
  {
    if |strs| > 1 {
      AllEmptySplit(strs[1..]);
      assert strs[1..][..|strs| - 2] == strs[..|strs| - 1][1..];
    }
  }

  lemma {:induction false} FlattenAppend(a: seq<string>, b: seq<string>)
    ensures Flatten(a + b) == Flatten(a) + Flatten(b)
    decreases |b|
  {
    if b == [] {
      assert a + b == a;
    } else {
      assert (a + b)[..|a + b| - 1] == a + b[..|b| - 1];
      FlattenAppend(a, b[..|b| - 1]);
    }
  }

  lemma {:induction false} FlattenEmptyIff(texts: seq<string>)
    ensures Flatten(texts) == "" <==> AllBlank(texts)
    decreases |texts|
  {
    if texts != [] {
      var n := |texts|;
      FlattenEmptyIff(texts[..n - 1]);
      assert texts == texts[..n - 1] + [texts[n - 1]];
      AllBlankAppend(texts[..n - 1], [texts[n - 1]]);
    }
  }

  /** Rendering writes exactly the leaves' texts, in order. */
  lemma {:induction false} TextOfRender(fs: FormattedString)
    ensures Text(FsTrace(fs)) == Flatten(Leaves(fs))
    decreases fs
  {
    match fs
    case Plain(text) =>
      assert Flatten([text]) == Flatten([]) + text;
    case Labeled(str, labels) =>
      TextOfRender(str);
      TextAppend(Pushes(labels) + FsTrace(str), Pops(|labels|));
      TextAppend(Pushes(labels), FsTrace(str));
      TextOfLabelCalls(labels, |labels|);
    case Concat(strs) =>
      TextOfRenderList(strs);
  }

  lemma {:induction false} TextOfRenderList(strs: seq<FormattedString>)
    ensures Text(FsTraceList(strs)) == Flatten(LeavesOf(strs))
    decreases strs
  {
    if strs != [] {
      var n := |strs|;
      TextOfRenderList(strs[..n - 1]);
      TextOfRender(strs[n - 1]);
      TextAppend(FsTraceList(strs[..n - 1]), FsTrace(strs[n - 1]));
      FlattenAppend(LeavesOf(strs[..n - 1]), Leaves(strs[n - 1]));
    }
  }

  /** A tree is empty iff rendering it writes no text. */
  lemma IsEmptyIffRendersNoText(fs: FormattedString)
    ensures IsEmpty(fs) <==> Text(FsTrace(fs)) == ""
  {
    TextOfRender(fs);
    FlattenEmptyIff(Leaves(fs));
    IsEmptyIffLeavesEmpty(fs);
  }

  // ------------------------------------------------------------------
  // Labels

  /** Prepending a label wraps the whole render in one push and one pop of it. */
  lemma PrependLabelTrace(fs: FormattedString, name: string)
    ensures FsTrace(PrependLabel(fs, name)) == [Push(name)] + FsTrace(fs) + [Pop]
  {
    match fs
    case Labeled(str, labels) =>
      assert Pushes([name] + labels) == [Push(name)] + Pushes(labels);
      assert Pops(|labels| + 1) == Pops(|labels|) + [Pop];
    case _ =>
      assert Pushes([name]) == [Push(name)];
      assert Pops(1) == [Pop];
  }

  /** `prepend_label(x)` then `prepend_label(y)` renders as a node labelled
      `[y, x]`: `y` is the outer label. */
  lemma PrependTwice(fs: FormattedString, x: string, y: string)
    ensures FsTrace(PrependLabel(PrependLabel(fs, x), y)) == FsTrace(Labeled(fs, [y, x]))
  {
    PrependLabelTrace(fs, x);
    PrependLabelTrace(PrependLabel(fs, x), y);
    assert Pushes([y, x]) == [Push(y), Push(x)];
    assert Pops(2) == [Pop, Pop];
  }

  /** Rendering any tree leaves the label stack as it found it. */
  lemma {:induction false} RenderIsBalanced(fs: FormattedString, stack: seq<string>)
    ensures StackAfter(stack, FsTrace(fs)) == stack
    decreases fs
  {
    match fs
    case Plain(_) =>
    case Labeled(str, labels) =>
      StackAfterAppend(stack, Pushes(labels) + FsTrace(str), Pops(|labels|));
      StackAfterAppend(stack, Pushes(labels), FsTrace(str));
      StackAfterPushes(stack, labels);
      RenderIsBalanced(str, stack + labels);
      StackAfterPops(stack, labels);
    case Concat(strs) =>
      RenderListIsBalanced(strs, stack);
  }

  lemma {:induction false} RenderListIsBalanced(strs: seq<FormattedString>, stack: seq<string>)
    ensures StackAfter(stack, FsTraceList(strs)) == stack
    decreases strs
  {
    if strs != [] {
      var n := |strs|;
      StackAfterAppend(stack, FsTraceList(strs[..n - 1]), FsTrace(strs[n - 1]));
      RenderListIsBalanced(strs[..n - 1], stack);
      RenderIsBalanced(strs[n - 1], stack);
    }
  }

  // ------------------------------------------------------------------
  // Join

  /** `join(xs, sep)` has `xs` at the even positions, in order, and `sep` at
      every odd position: `2|xs| - 1` elements, none when `xs` is empty. */
  lemma {:induction false} JoinShape(xs: seq<FormattedString>, sep: FormattedString)
    ensures Join(xs, sep).Concat?
    ensures |Join(xs, sep).strs| == if |xs| == 0 then 0 else 2 * |xs| - 1
    ensures forall i :: 0 <= i < |xs| ==> Join(xs, sep).strs[2 * i] == xs[i]
    ensures forall j :: 0 <= j < |Join(xs, sep).strs| && j % 2 == 1 ==> Join(xs, sep).strs[j] == sep
  {
    IntersperseLength(xs, sep);
    forall i | 0 <= i < |xs| ensures Join(xs, sep).strs[2 * i] == xs[i] {
      IntersperseEven(xs, sep, i);
    }
    forall j | 0 <= j < |Join(xs, sep).strs| && j % 2 == 1 ensures Join(xs, sep).strs[j] == sep {
      IntersperseOdd(xs, sep, j);
    }
  }

  lemma {:induction false} IntersperseLength(xs: seq<FormattedString>, sep: FormattedString)
    ensures |Intersperse(xs, sep)| == if |xs| == 0 then 0 else 2 * |xs| - 1
    decreases |xs|
  {
    if |xs| > 1 {
      IntersperseLength(xs[1..], sep);
    }
  }

  lemma {:induction false} IntersperseEven(xs: seq<FormattedString>, sep: FormattedString, i: nat)
    requires i < |xs|
    ensures 2 * i < |Intersperse(xs, sep)| && Intersperse(xs, sep)[2 * i] == xs[i]
    decreases |xs|
  {
    IntersperseLength(xs, sep);
    if |xs| > 1 && i > 0 {
      IntersperseEven(xs[1..], sep, i - 1);
      assert Intersperse(xs, sep)[2 * i] == Intersperse(xs[1..], sep)[2 * (i - 1)];
    }
  }

  lemma {:induction false} IntersperseOdd(xs: seq<FormattedString>, sep: FormattedString, j: nat)
    requires j < |Intersperse(xs, sep)| && j % 2 == 1
    ensures Intersperse(xs, sep)[j] == sep
    decreases |xs|
  {
    IntersperseLength(xs, sep);
    if j > 1 {
      IntersperseLength(xs[1..], sep);
      IntersperseOdd(xs[1..], sep, j - 2);
      assert Intersperse(xs, sep)[j] == Intersperse(xs[1..], sep)[j - 2];
    }
  }
}
