# jj templater core, modelled in Dafny

This project models the template engine of jj's `src/templater.rs`: the
`FormattedString` tree of labelled text, the templates that render text
through a formatter with a stack of style labels, the commit properties
that templates show (description, working copies, branches, tags, git
refs, divergence), and the shortening of commit and change ids.

Modules, one per part of the program:

- `Wrappers` (`wrappers.dfy`): `Option`.
- `Formatting` (`formatting.dfy`): the formatter a template writes to. The
  class `Sink` holds the label stack, a log of the calls it accepted
  (`Write`, `Push`, `Pop`) and an optional quota of calls. A call made when
  the quota is used up fails and changes nothing, which is how an
  `io::Result` error is represented. The pure function `Exec` runs a
  sequence of calls and stops at the first failure, like `?`.
- `FormattedStrings` (`formatted_string.dfy`): the `FormattedString`
  datatype with `prepend_label`, `is_empty`, `concat`, `join` and
  `Default`. `FsTrace` is the sequence of calls rendering a string makes.
- `Templater` (`templater.dfy`): the closed datatype `Template<C>` with one
  constructor per template kind (literal, label, dynamic label, list,
  string property, formatted-string property, conditional). Properties are
  functions of the context `C`. `Trace(t, ctx)` is the sequence of calls a
  template makes when nothing fails. The method `Format` renders a template
  on a `Sink`, and its contract says the sink ends in the state
  `Exec(old state, Trace(t, ctx))`. `to_template`, `FormattedString::format`,
  `From<FormattedString> for String` and `TemplateFunction` are here too.
- `Strings` (`strings.dfy`): Rust's order on `String`s, sorted insertion and
  `join(" ")`.
- `RepoView` (`repo_view.dfy`): commits, ref targets (`has_add`,
  `is_conflict`) and the view's maps. A map is given with the order in which
  it is iterated (`OrderedMap`).
- `CommitProperties` (`properties.dfy`): the commit properties. Loops that
  build a list of names are methods proved against a recursive function of
  the input. The boolean properties `IsWorkingCopy`, `IsGitHead`,
  `HasConflict`, `IsEmptyCommit` and `IsDivergent` are one-line predicates.
- `Ids` (`ids.dfy`): hex encoding, `short` and `highlight_shortest_prefix`.

Two behaviours of the code worth stating plainly, because a reader might
expect otherwise:

- A label template whose content fails does not pop its labels: the
  content's `?` at src/templater.rs:78 returns before the pop loop at
  79-81, so the labels stay pushed. `Templater.LabelFormatErrorPropagates`
  proves this for every label template, and
  `Templater.LabelFormatErrorLeavesLabels` shows it on a concrete render.
- `highlight_shortest_prefix` brackets the digits from the prefix length up
  to `total_len - 2` (src/templater.rs:595-600). With a 12-character total
  and a 4-digit prefix the id `abcdef012345...` shows as `abcd[ef0123]`,
  six bracketed digits. `Ids.HighlightExample` proves that result.

## Model

| member | source | states |
|---|---|---|
| `Formatting.Sink.constructor` | src/templater.rs:231-233 | A new formatter has an empty label stack and an empty output, with the given quota of calls. |
| `Formatting.Sink.WriteStr` | src/templater.rs:57 | `write_str` appends the text to the output and leaves the stack alone, or fails with no effect when the quota is used up. |
| `Formatting.Sink.PushLabel` | src/templater.rs:76 | `push_label` pushes the label onto the stack, or fails with no effect. |
| `Formatting.Sink.PopLabel` | src/templater.rs:80 | `pop_label` pops the top label, or fails with no effect. |
| `Formatting.PushLabels` | src/templater.rs:75-77 | The push loop leaves the sink exactly as running the pushes of the labels in list order, stopping at the first failure. |
| `Formatting.PopLabels` | src/templater.rs:79-81 | The pop loop leaves the sink exactly as running `n` pops, stopping at the first failure. |
| `Formatting.StackAfterPushes` | src/templater.rs:75-77 | Pushing a label list in order leaves the old stack extended by the list. |
| `Formatting.StackAfterPops` | src/templater.rs:79-81 | Popping as many times as there are labels removes the labels again. |
| `Formatting.TextOfLabelCalls` | src/templater.rs:75-81 | Push and pop calls write no text. |
| `Formatting.ExecPerformsAdmittedPrefix` | src/templater.rs:74-83 | Under `?`, a run of calls performs exactly the prefix the quota admits; it succeeds iff that prefix is all of them, and the stack, output and quota are those of that prefix. |
| `Formatting.ExecUnlimited` | src/templater.rs:229-236 | A formatter that never fails performs every call. |
| `Formatting.ExecFailedPrefix` | src/templater.rs:124-129 | Once a prefix of the calls fails, the calls after it have no effect. |
| `FormattedStrings.Default` | src/templater.rs:214-218 | The default formatted string is a single empty leaf, so it is empty. |
| `FormattedStrings.PrependLabel` | src/templater.rs:185-196 | On a labelled node the new label goes in front of the label list and the inner string is kept; any other node is wrapped in a labelled node with exactly that one label. |
| `FormattedStrings.IsEmpty` | src/templater.rs:198-204 | Definition of `is_empty` (no contract of its own): a leaf is empty when its text is, a labelled node when its child is, a concatenation when all its parts are; `IsEmptyIffLeavesEmpty` and `IsEmptyIffRendersNoText` give its meaning. |
| `FormattedStrings.ConcatIsEmpty` | src/templater.rs:202 | A concatenation is empty iff every part is empty. |
| `FormattedStrings.ConcatPairIsEmpty` | src/templater.rs:202 | A concatenation of two parts is empty iff both are. |
| `FormattedStrings.PrependLabelKeepsEmptiness` | src/templater.rs:185-204 | Prepending a label never changes emptiness. |
| `FormattedStrings.IsEmptyIffLeavesEmpty` | src/templater.rs:198-204 | `is_empty` holds iff every plain leaf of the tree is the empty string. |
| `FormattedStrings.IsEmptyIffRendersNoText` | src/templater.rs:198-204 | `is_empty` holds iff rendering the string writes no text. |
| `FormattedStrings.TextOfRender` | src/templater.rs:168-181 | Rendering writes the leaves' texts in order. |
| `FormattedStrings.PrependLabelTrace` | src/templater.rs:185-196 | A prepended label is pushed before, and popped after, everything the string renders. |
| `FormattedStrings.PrependTwice` | src/templater.rs:383-387 | Prepending `x` and then `y` renders like a node labelled `[y, x]`, so `y` is the outer label. |
| `FormattedStrings.RenderIsBalanced` | src/templater.rs:168-181 | Rendering a formatted string leaves the label stack as it found it. |
| `FormattedStrings.Join` | src/templater.rs:210-212 | `join` gives a concatenation with no parts for no elements and `2n-1` parts otherwise; `JoinShape` places the elements and separators. |
| `FormattedStrings.JoinShape` | src/templater.rs:210-212 | `join` gives a concatenation of length 0 for no elements and `2n-1` otherwise, with the elements in order at even positions and the separator at every odd position. |
| `FormattedStrings.IntersperseLength` | src/templater.rs:211 | Interspersing `n > 0` elements gives `2n-1` parts. |
| `Templater.Trace` | src/templater.rs:55-130 | Definition (no contract of its own) of the calls each template kind makes when nothing fails, the specification `Format` is proved against; it also covers src/templater.rs:151-156, 242-247 and 529-538, and `TraceIsBalanced`, `LabelFormatOnSuccess`, `ListStopsAtFirstError` and `ConditionalFormat` state its properties. |
| `Templater.ToTemplate` | src/templater.rs:168-178 | Definition of `to_template` (no contract of its own): a leaf becomes a literal, a labelled node a label template, a concatenation a list; `ToTemplateTrace` proves it renders like the string. |
| `Templater.TemplateFunction` | src/templater.rs:560-564 | The result applies the function to the property's value, and so depends on the context only through that value. |
| `Templater.Format` | src/templater.rs:55-130 | Rendering any template leaves the sink as running the template's calls under `?`: a literal or string property writes its text, labels wrap their content in pushes and pops, a list renders its children in order, a conditional picks a branch. |
| `Templater.FormatLabeled` | src/templater.rs:73-118 | Label and dynamic-label rendering pushes the labels, renders the content, pops as many labels, returning at the first error. |
| `Templater.FormatList` | src/templater.rs:123-130 | The loop over children leaves the sink as running all children's calls in order, stopping at the first error. |
| `Templater.FormatString` | src/templater.rs:179-181 | Formatting a formatted string is rendering its template, and also its structural rendering. |
| `Templater.IntoString` | src/templater.rs:229-236 | Converting to `String` gives the leaves' texts concatenated, and the result is empty iff `is_empty` holds. |
| `Templater.ToTemplateTrace` | src/templater.rs:168-178 | The template built by `to_template` makes exactly the calls of rendering the string. |
| `Templater.TraceIsBalanced` | src/templater.rs:73-118 | A render that does not fail leaves the label stack as it found it. |
| `Templater.LabeledIsBalanced` | src/templater.rs:74-83 | The content of a label template sees the old stack plus the labels, and the stack is restored afterwards. |
| `Templater.ListTraceIsBalanced` | src/templater.rs:124-129 | A list of templates that does not fail leaves the label stack unchanged. |
| `Templater.LabelFormatOnSuccess` | src/templater.rs:74-83 | A successful label render keeps the stack, and its output is the pushes in list order, the content's calls, then exactly `|labels|` pops; after the pushes the stack is the old stack plus the labels. |
| `Templater.DynamicLabelFormatOnSuccess` | src/templater.rs:107-117 | A successful dynamic-label render keeps the stack, and its output is the pushes of the labels the property gives for the context, the content's calls, then as many pops; after the pushes the stack is the old stack plus those labels. |
| `Templater.LabelFormatErrorLeavesLabels` | src/templater.rs:76-82 | An illustration of `LabelFormatErrorPropagates`: rendering `Label(Literal("x"), ["a"])` on a sink that accepts two calls fails with `a` still on the stack. |
| `Templater.LabelFormatErrorPropagates` | src/templater.rs:76-82 | For every label template whose pushes succeed and whose content fails, the render ends exactly where the content's render ends: no label is popped. |
| `Templater.ListStopsAtFirstError` | src/templater.rs:124-129 | When child `i` is the first to fail, the list render ends exactly where that child's render ends; later children do nothing. |
| `Templater.ConditionalFormat` | src/templater.rs:530-537 | The true branch renders iff the condition holds; otherwise the false branch if there is one, and nothing at all if there is none. |
| `Strings.LessIrreflexive` | src/templater.rs:337 | No string sorts before itself. |
| `Strings.LessTransitive` | src/templater.rs:337 | The string order is transitive. |
| `Strings.LessTotal` | src/templater.rs:337 | Of two distinct strings one sorts first. |
| `Strings.Insert` | src/templater.rs:337 | Inserting into a strictly sorted list keeps it strictly sorted and adds exactly the one new element. |
| `Strings.SortedEnumerationUnique` | src/templater.rs:337 | A set of names has only one strictly sorted listing, so sorting is determined by the set. |
| `CommitProperties.Description` | src/templater.rs:300-308 | The result always ends in a newline: the placeholder for an empty description, the description itself when it already ends in a newline, otherwise the description plus one newline. |
| `CommitProperties.DescriptionIdempotent` | src/templater.rs:301-307 | Applying the rule to its own result changes nothing. |
| `CommitProperties.WorkingCopies` | src/templater.rs:330-344 | Empty with at most one workspace; otherwise the names `ws@` of the workspaces whose working copy is the commit, in sorted order, joined by spaces. |
| `CommitProperties.WcNamesIff` | src/templater.rs:336-341 | A name is listed iff it is `ws@` for a workspace whose working-copy commit is the commit. |
| `CommitProperties.WorkingCopiesListIff` | src/templater.rs:351-355 | `ws@` is listed iff the commit is the working copy of `ws`, which is what the working-copy test asks. |
| `CommitProperties.RefNames` | src/templater.rs:416-428 | The names of the refs, in iteration order, whose target has the commit as an add, each with `?` iff the target is conflicted, joined by spaces. |
| `CommitProperties.Tags` | src/templater.rs:415-429 | The tag list is the decorated names of the tags pointing at the commit. |
| `CommitProperties.GitRefs` | src/templater.rs:435-451 | The git-ref list is the decorated names of the git refs pointing at the commit. |
| `CommitProperties.DecoratedNamesIff` | src/templater.rs:416-428 | A label is listed iff some ref points at the commit and the label is that ref's name, suffixed with `?` exactly when the ref is conflicted. |
| `CommitProperties.Branches` | src/templater.rs:361-409 | The branch list is each branch's local piece and then its remote pieces, branch by branch, joined by single spaces. |
| `CommitProperties.LocalPieceOf` | src/templater.rs:365-388 | The local half of one loop iteration builds exactly the local piece whose shape `LocalPieceShape` states. |
| `CommitProperties.LocalPieceShape` | src/templater.rs:365-388 | There is at most one local piece, present iff the local target has the commit as an add; it reads the branch name followed by `??` when the local target is conflicted, else `*` when some remote target differs, else nothing; `??` is rendered inside the label `divergent` and `*` inside `remote` then `diff`. |
| `CommitProperties.RemotePiecesOf` | src/templater.rs:389-405 | The remote loop emits one piece per shown remote, in iteration order. |
| `CommitProperties.RemotePiecesIff` | src/templater.rs:389-390 | A remote piece appears iff that remote's target differs from the local target and has the commit as an add. |
| `CommitProperties.RemotePieceText` | src/templater.rs:391-404 | A remote piece reads `name@remote`, followed by `??` iff the remote target is conflicted. |
| `CommitProperties.BranchMarkerExample` | src/templater.rs:376-388 | A branch whose remote agrees with it shows its bare name; adding a remote at another commit adds `*` with labels `remote`, `diff`. |
| `CommitProperties.IsWorkingCopy` | src/templater.rs:351-355 | Definition (no contract of its own): the workspace has a working-copy commit and it is this commit, false for an unknown workspace; `WorkingCopiesListIff` ties it to the working-copy list. |
| `CommitProperties.IsGitHead` | src/templater.rs:463-466 | Definition (no contract of its own): the view's git HEAD is set and is this commit. |
| `CommitProperties.HasConflict` | src/templater.rs:502-505 | Definition (no contract of its own): the answer of the commit tree's conflict query, which the caller supplies. |
| `CommitProperties.IsEmptyCommit` | src/templater.rs:655-658 | Definition (no contract of its own): the commit's tree is the merged tree of its parents, which the caller supplies. |
| `CommitProperties.NewDivergentProperty` | src/templater.rs:474-491 | A change id is divergent iff more than one commit of the history carries it. |
| `CommitProperties.CountAboveOneIff` | src/templater.rs:484-488 | Counted more than once means present at two distinct positions of the history. |
| `CommitProperties.DivergenceExample` | src/templater.rs:473-498 | With one commit of change A and two of change B, only B is divergent. |
| `CommitProperties.IsDivergent` | src/templater.rs:494-497 | Definition (no contract of its own): the commit's change id is in the divergent set, which `NewDivergentProperty` characterises. |
| `Ids.HexDigit` | src/templater.rs:575-577 | Each nibble becomes a lower-case hex digit. |
| `Ids.DigitValue` | src/templater.rs:575-577 | Each hex digit decodes to the nibble it encodes. |
| `Ids.Hex` | src/templater.rs:575-577 | The encoding has two hex digits per byte. |
| `Ids.UnhexHex` | src/templater.rs:575-577 | Decoding the hex form gives the bytes back. |
| `Ids.HexUnhex` | src/templater.rs:575-577 | Every even-length hex string is the encoding of its decoding. |
| `Ids.HexInjective` | src/templater.rs:575-577 | Distinct ids have distinct hex forms. |
| `Ids.HexPrefix` | src/templater.rs:579-583 | The first `2k` digits encode the first `k` bytes. |
| `Ids.Truncate` | src/templater.rs:579-583 | Truncation keeps the first `n` characters, or the whole string when it is shorter. |
| `Ids.Short` | src/templater.rs:579-583 | The short id is the first 12 hex digits, or all of them for an id of under 6 bytes. |
| `Ids.ShortUsesSixBytes` | src/templater.rs:579-583 | The short id depends only on the first six bytes. |
| `Ids.HighlightShortestPrefix` | src/templater.rs:590-605 | With a unique prefix shorter than `total_len-2`, the result has `total_len` characters: the prefix, `[`, the following digits up to `total_len-2`, `]`; otherwise it is the hex truncated to `total_len`. |
| `Ids.ShortPrefixAndBrackets` | src/templater.rs:585-587 | The highlighted short id has 12 characters when the unique prefix is shorter than 10, and starts with the prefix followed by `[`; otherwise it is as long as the short id. |
| `Ids.ShortPrefixAndBracketsDigits` | src/templater.rs:585-605 | Without its brackets the result is the short id cut to 10 digits; with a unique prefix of 10 or more it is exactly the short id. |
| `Ids.HighlightExample` | src/templater.rs:590-605 | Id `abcdef012345...` with a 4-digit unique prefix shows as `abcd[ef0123]`. |

## Left out

- The colour formatter, the plain-text formatter and the style resolver are not part of this model. The sink is abstract: a label stack and a log of calls. No ANSI output is modelled, nor the colour test at src/templater.rs:249-296.
- I/O failures are modelled only as a quota of calls on the sink, not as distinct error kinds.
- UTF-8 lossy decoding in the `String` conversion is not modelled: text is `seq<char>` throughout, so it is always valid.
- Repository queries are parameters. `DivergentProperty::new` takes the change ids of the whole history as a sequence. The shortest unique prefix length is an argument. `EmptyProperty` takes the tree id of the merged parents. `ConflictProperty` takes the tree's conflict answer as a field of the commit. The view is given as plain maps.
- The iteration order of the view's branch, remote, tag and git-ref maps is external. Each map comes with its key sequence, and the properties are stated over that order. Only the working copies are sorted by the code, and the model sorts them too.
- WorkingCopies: the code sorts (workspace, commit id) pairs. The model sorts workspace names only, which gives the same order because names are unique.
- NewDivergentProperty: the per-change counter is an `i32` in the code. The model counts with unbounded integers, so it does not model an overflow after 2^31 commits of one change.
- HighlightShortestPrefix: the code would underflow `total_len - 2` for `total_len < 2` and panic when slicing past the end of the hex string. The model has preconditions against both, so it does not model those panics.
- The formatter's `pop_label` on an empty stack is external behaviour. The model treats it as doing nothing. No template ever does it, as the balance lemmas show.
- `AuthorProperty`, `CommitterProperty`, `CommitIdProperty`, `ChangeIdProperty`, `SignatureTimestamp`, `ConstantTemplateProperty` and `as_bytes` only select a field or return a constant. In the model they are plain lambdas such as `c => c.author`; no member stands for them.
- `CommitOrChangeIdShort` and `CommitOrChangeIdShortPrefixAndBrackets` (src/templater.rs:611-625) forward to `short()` and `short_prefix_and_brackets(repo)`. In the model they are lambdas over `Ids.Short` and `Ids.ShortPrefixAndBrackets`; the prefix length the second one asks the repository for is passed in.
- `TemplateFormatter` (src/templater.rs:35-51), boxing and lifetimes are plumbing around `format`. `From<String>` and `From<&str>` are the `Plain` constructor.
