/**
 * The properties of a commit that templates render: its description, the
 * workspaces, branches, tags and git refs pointing at it, and whether it is
 * divergent, conflicted, empty or the git HEAD.
 */
module CommitProperties {
  import opened Wrappers
  import opened RepoView
  import opened Strings
  import opened FormattedStrings
  import opened Formatting

  const NoDescription := "(no description set)\n"

  /** `DescriptionProperty`: the description ending in exactly one added
      newline at most, or a placeholder when there is none. */
  function Description(c: Commit): (r: string)
    ensures |r| > 0 && r[|r| - 1] == '\n'
    ensures c.description == "" ==> r == NoDescription
    ensures c.description != "" ==> r == c.description || r == c.description + "\n"
    ensures c.description != "" ==> (r == c.description <==> c.description[|c.description| - 1] == '\n')
  {
    var s := c.description;
    if s == [] then NoDescription
    else if s[|s| - 1] == '\n' then s
    else s + "\n"
  }

  /** Rendering the description of a commit whose description is already a
      rendered description changes nothing. */
  lemma DescriptionIdempotent(c: Commit)
    ensures Description(c.(description := Description(c))) == Description(c)
  {
  }

  /** `IsWorkingCopyProperty` */
  predicate IsWorkingCopy(view: View, workspace: WorkspaceId, c: Commit)
  {
    workspace in view.wcCommitIds && view.wcCommitIds[workspace] == c.id
  }

  /** `IsGitHeadProperty` */
  predicate IsGitHead(view: View, c: Commit)
  {
    view.gitHead == Some(c.id)
  }

  /** `ConflictProperty`: the answer of the commit tree's conflict query. */
  predicate HasConflict(c: Commit)
  {
    c.treeHasConflict
  }

  /** `EmptyProperty`: the commit's tree is the tree obtained by merging its
      parents' trees, which the caller supplies. */
  predicate IsEmptyCommit(c: Commit, mergedParentTree: TreeId)
  {
    c.tree == mergedParentTree
  }

  // ------------------------------------------------------------------
  // Working copies

  /** `"<workspace>@"` for each workspace of `keys`, in order, whose
      working-copy commit is `id`. */
  function WcNames(wc: map<WorkspaceId, CommitId>, keys: seq<WorkspaceId>, id: CommitId): seq<string>
    requires forall k :: k in keys ==> k in wc
  {
    if keys == [] then []
    else
      var k := keys[|keys| - 1];
      WcNames(wc, keys[..|keys| - 1], id) + (if wc[k] == id then [k + "@"] else [])
  }

  /** `WorkingCopiesProperty`: nothing when there is at most one workspace,
      otherwise the workspaces whose working copy is the commit, in sorted
      order, space-separated. */
  method WorkingCopies(view: View, c: Commit) returns (r: string)
    ensures |view.wcCommitIds| <= 1 ==> r == ""
    ensures |view.wcCommitIds| > 1 ==>
      forall ks :: SortedEnumeration(ks, view.wcCommitIds.Keys) ==> r == JoinSpaces(WcNames(view.wcCommitIds, ks, c.id))
    ensures |view.wcCommitIds| > 1 ==>
      exists ks :: SortedEnumeration(ks, view.wcCommitIds.Keys) && r == JoinSpaces(WcNames(view.wcCommitIds, ks, c.id))
  {
    var wc := view.wcCommitIds;
    if |wc| <= 1 {
      return "";
    }
    var sorted: seq<WorkspaceId> := [];
    var rest := wc.Keys;
    while rest != {}
      invariant StrictlySorted(sorted)
      invariant forall k :: k in sorted <==> k in wc && k !in rest
      invariant rest <= wc.Keys
      decreases rest
    {
      var k :| k in rest;
      var next := Insert(sorted, k);
      assert forall x :: x in next <==> x in multiset(next);
      sorted := next;
      rest := rest - {k};
    }
    var names: seq<string> := [];
    for i := 0 to |sorted|
      invariant names == WcNames(wc, sorted[..i], c.id)
    {
      assert sorted[..i + 1][..i] == sorted[..i];
      if wc[sorted[i]] == c.id {
        names := names + [sorted[i] + "@"];
      }
    }
    assert sorted[..|sorted|] == sorted;
    r := JoinSpaces(names);
    assert SortedEnumeration(sorted, wc.Keys);
    forall ks | SortedEnumeration(ks, wc.Keys)
      ensures r == JoinSpaces(WcNames(wc, ks, c.id))
    {
      SortedEnumerationUnique(ks, sorted, wc.Keys);
    }
  }

  lemma {:induction false} WcNamesIff(wc: map<WorkspaceId, CommitId>, keys: seq<WorkspaceId>, id: CommitId, x: string)
    requires forall k :: k in keys ==> k in wc
    ensures x in WcNames(wc, keys, id) <==> exists ws :: ws in keys && wc[ws] == id && x == ws + "@"
    decreases |keys|
  {
    if keys != [] {
      var n := |keys|;
      WcNamesIff(wc, keys[..n - 1], id, x);
      assert forall ws :: ws in keys <==> ws in keys[..n - 1] || ws == keys[n - 1];
    }
  }

  /** The working-copy list names a workspace iff the commit is that
      workspace's working copy. */
  lemma WorkingCopiesListIff(view: View, keys: seq<WorkspaceId>, workspace: WorkspaceId, c: Commit)
    requires forall k :: k in keys <==> k in view.wcCommitIds
    ensures workspace + "@" in WcNames(view.wcCommitIds, keys, c.id) <==> IsWorkingCopy(view, workspace, c)
  {
    WcNamesIff(view.wcCommitIds, keys, c.id, workspace + "@");
    if workspace + "@" in WcNames(view.wcCommitIds, keys, c.id) {
      var ws :| ws in keys && view.wcCommitIds[ws] == c.id && workspace + "@" == ws + "@";
      assert (workspace + "@")[..|workspace|] == workspace;
      assert (ws + "@")[..|ws|] == ws;
    }
  }

  // ------------------------------------------------------------------
  // Tags and git refs

  /** A ref's name, suffixed with `?` when the ref is conflicted. */
  function RefLabel(name: string, t: RefTarget): string
  {
    if IsConflict(t) then name + "?" else name
  }

  /** The labels of the refs of `keys`, in order, that point at `id`. */
  function DecoratedNames(refs: map<string, RefTarget>, keys: seq<string>, id: CommitId): seq<string>
    requires forall k :: k in keys ==> k in refs
  {
    if keys == [] then []
    else
      var k := keys[|keys| - 1];
      DecoratedNames(refs, keys[..|keys| - 1], id) + (if HasAdd(refs[k], id) then [RefLabel(k, refs[k])] else [])
  }

  /** The loop shared by `TagProperty` and `GitRefsProperty`. */
  method RefNames(refs: OrderedMap<RefTarget>, id: CommitId) returns (r: string)
    requires refs.Valid()
    ensures r == JoinSpaces(DecoratedNames(refs.entries, refs.keys, id))
  {
    var names: seq<string> := [];
    for i := 0 to |refs.keys|
      invariant names == DecoratedNames(refs.entries, refs.keys[..i], id)
    {
      var name := refs.keys[i];
      var target := refs.entries[name];
      assert refs.keys[..i + 1][..i] == refs.keys[..i];
      if HasAdd(target, id) {
        if IsConflict(target) {
          names := names + [name + "?"];
        } else {
          names := names + [name];
        }
      }
    }
    assert refs.keys[..|refs.keys|] == refs.keys;
    r := JoinSpaces(names);
  }

  /** `TagProperty` */
  method Tags(view: View, c: Commit) returns (r: string)
    requires view.tags.Valid()
    ensures r == JoinSpaces(DecoratedNames(view.tags.entries, view.tags.keys, c.id))
  {
    r := RefNames(view.tags, c.id);
  }

  /** `GitRefsProperty` */
  method GitRefs(view: View, c: Commit) returns (r: string)
    requires view.gitRefs.Valid()
    ensures r == JoinSpaces(DecoratedNames(view.gitRefs.entries, view.gitRefs.keys, c.id))
  {
    r := RefNames(view.gitRefs, c.id);
  }

  /** A ref is listed iff it points at the commit, and its label carries `?`
      iff it is conflicted. */
  lemma {:induction false} DecoratedNamesIff(refs: map<string, RefTarget>, keys: seq<string>, id: CommitId, x: string)
    requires forall k :: k in keys ==> k in refs
    ensures x in DecoratedNames(refs, keys, id) <==>
            exists k :: k in keys && HasAdd(refs[k], id) && x == RefLabel(k, refs[k])
    decreases |keys|
  {
    if keys != [] {
      var n := |keys|;
      DecoratedNamesIff(refs, keys[..n - 1], id, x);
      assert forall k :: k in keys <==> k in keys[..n - 1] || k == keys[n - 1];
    }
  }

  // ------------------------------------------------------------------
  // Branches

  /** Some remote target of the branch differs from its local target. */
  predicate RemoteDiffers(remotes: map<string, RefTarget>, local: RefTarget)
  {
    exists remote :: remote in remotes && remotes[remote] != local
  }

  /** The piece for the local branch: its name, then `??` (label
      `divergent`) if the local target is conflicted, else `*` (labels
      `remote`, `diff`) if some remote differs; nothing unless the local
      target exists and points at the commit. */
  function LocalPiece(name: string, bt: BranchTarget, id: CommitId): seq<FormattedString>
  {
    match bt.localTarget
    case None => []
    case Some(local) =>
      if !HasAdd(local, id) then []
      else if IsConflict(local) then
        [Concat([Plain(name), PrependLabel(Plain("??"), "divergent")])]
      else if RemoteDiffers(bt.remoteTargets.entries, local) then
        [Concat([Plain(name), PrependLabel(PrependLabel(Plain("*"), "diff"), "remote")])]
      else
        [Concat([Plain(name)])]
  }

  /** At most one local piece, present iff the local target points at the
      commit. It reads the branch name followed by `??` when the local target
      is conflicted, else by `*` when some remote differs; the marker is
      rendered inside the label `divergent`, or inside `remote` then `diff`. */
  lemma LocalPieceShape(name: string, bt: BranchTarget, id: CommitId)
    ensures |LocalPiece(name, bt, id)| <= 1
    ensures LocalPiece(name, bt, id) != [] <==> bt.localTarget.Some? && HasAdd(bt.localTarget.value, id)
    ensures LocalPiece(name, bt, id) != [] ==>
              var local := bt.localTarget.value;
              Flatten(Leaves(LocalPiece(name, bt, id)[0]))
                == name + (if IsConflict(local) then "??" else if RemoteDiffers(bt.remoteTargets.entries, local) then "*" else "")
    ensures LocalPiece(name, bt, id) != [] ==>
              var local := bt.localTarget.value;
              FsTrace(LocalPiece(name, bt, id)[0])
                == [Write(name)]
                   + (if IsConflict(local) then [Push("divergent"), Write("??"), Pop]
                      else if RemoteDiffers(bt.remoteTargets.entries, local) then [Push("remote"), Push("diff"), Write("*"), Pop, Pop]
                      else [])
  {
    if bt.localTarget.Some? && HasAdd(bt.localTarget.value, id) {
      var local := bt.localTarget.value;
      if IsConflict(local) {
        MarkedPiece(name, PrependLabel(Plain("??"), "divergent"), "??", ["divergent"]);
      } else if RemoteDiffers(bt.remoteTargets.entries, local) {
        var marker := PrependLabel(PrependLabel(Plain("*"), "diff"), "remote");
        assert marker == Labeled(Plain("*"), ["remote", "diff"]);
        MarkedPiece(name, marker, "*", ["remote", "diff"]);
        assert Pushes(["remote", "diff"]) + [Write("*")] + Pops(2) == [Push("remote"), Push("diff"), Write("*"), Pop, Pop];
      } else {
        NamePiece(name);
      }
    }
  }

  /** A piece of the name alone. */
  lemma NamePiece(name: string)
    ensures Flatten(Leaves(Concat([Plain(name)]))) == name
    ensures FsTrace(Concat([Plain(name)])) == [Write(name)]
  {
    LeavesOfSnoc([], Plain(name));
    FsTraceListSnoc([], Plain(name));
    assert [] + [Plain(name)] == [Plain(name)];
    FlattenSnoc([], name);
    assert [] + [name] == [name];
  }

  /** A piece of the name followed by a marker text under some labels. */
  lemma MarkedPiece(name: string, marker: FormattedString, text: string, labels: seq<string>)
    requires marker == Labeled(Plain(text), labels)
    ensures Flatten(Leaves(Concat([Plain(name), marker]))) == name + text
    ensures FsTrace(Concat([Plain(name), marker])) == [Write(name)] + (Pushes(labels) + [Write(text)] + Pops(|labels|))
  {
    NamePiece(name);
    assert [Plain(name)] + [marker] == [Plain(name), marker];
    LeavesOfSnoc([Plain(name)], marker);
    FsTraceListSnoc([Plain(name)], marker);
    FlattenSnoc([name], text);
  }

  lemma FsTraceListSnoc(strs: seq<FormattedString>, x: FormattedString)
    ensures FsTraceList(strs + [x]) == FsTraceList(strs) + FsTrace(x)
  {
    assert (strs + [x])[..|strs|] == strs;
  }

  /** The piece `name@remote`, with `@` labelled `separator`, the remote name
      labelled `remote`, and `??` (label `divergent`) if the remote target is
      conflicted. */
  function RemotePiece(name: string, remote: string, t: RefTarget): FormattedString
  {
    Concat([Plain(name), PrependLabel(Plain("@"), "separator"), PrependLabel(Plain(remote), "remote")]
           + (if IsConflict(t) then [PrependLabel(Plain("??"), "divergent")] else []))
  }

  /** A remote piece is shown when the remote target is not the local target
      and points at the commit. */
  predicate RemoteShown(bt: BranchTarget, remote: string, id: CommitId)
    requires remote in bt.remoteTargets.entries
  {
    var t := bt.remoteTargets.entries[remote];
    bt.localTarget != Some(t) && HasAdd(t, id)
  }

  function RemotePieces(name: string, bt: BranchTarget, keys: seq<string>, id: CommitId): seq<FormattedString>
    requires forall k :: k in keys ==> k in bt.remoteTargets.entries
  {
    if keys == [] then []
    else
      var remote := keys[|keys| - 1];
      RemotePieces(name, bt, keys[..|keys| - 1], id)
      + (if RemoteShown(bt, remote, id) then [RemotePiece(name, remote, bt.remoteTargets.entries[remote])] else [])
  }

  /** Every branch's pieces for the commit: the local piece, then the remote
      pieces, branch by branch in iteration order. */
  function BranchPieces(branches: map<string, BranchTarget>, keys: seq<string>, id: CommitId): seq<FormattedString>
    requires forall k :: k in keys ==> k in branches && branches[k].remoteTargets.Valid()
  {
    if keys == [] then []
    else
      var name := keys[|keys| - 1];
      var bt := branches[name];
      assert bt.remoteTargets.Valid();
      BranchPieces(branches, keys[..|keys| - 1], id)
      + LocalPiece(name, bt, id) + RemotePieces(name, bt, bt.remoteTargets.keys, id)
  }

  /** `BranchProperty`: all pieces joined with single spaces. */
  method Branches(view: View, c: Commit) returns (r: FormattedString)
    requires view.Valid()
    ensures r == Join(BranchPieces(view.branches.entries, view.branches.keys, c.id), Plain(" "))
  {
    var branches := view.branches;
    var names: seq<FormattedString> := [];
    for i := 0 to |branches.keys|
      invariant names == BranchPieces(branches.entries, branches.keys[..i], c.id)
    {
      var name := branches.keys[i];
      var bt := branches.entries[name];
      assert branches.keys[..i + 1][..i] == branches.keys[..i];
      var local := LocalPieceOf(name, bt, c.id);
      var remote := RemotePiecesOf(name, bt, c.id);
      names := names + local + remote;
    }
    assert branches.keys[..|branches.keys|] == branches.keys;
    r := Join(names, Plain(" "));
  }

  /** The local-target half of one iteration of `Branches`. */
  method LocalPieceOf(name: string, bt: BranchTarget, id: CommitId) returns (pieces: seq<FormattedString>)
    ensures pieces == LocalPiece(name, bt, id)
  {
    pieces := [];
    if bt.localTarget.Some? {
      var local := bt.localTarget.value;
      if HasAdd(local, id) {
        if IsConflict(local) {
          pieces := [Concat([Plain(name), PrependLabel(Plain("??"), "divergent")])];
        } else if exists remote :: remote in bt.remoteTargets.entries && bt.remoteTargets.entries[remote] != local {
          assert RemoteDiffers(bt.remoteTargets.entries, local);
          pieces := [Concat([Plain(name), PrependLabel(PrependLabel(Plain("*"), "diff"), "remote")])];
        } else {
          assert !RemoteDiffers(bt.remoteTargets.entries, local);
          pieces := [Concat([Plain(name)])];
        }
      }
    }
  }

  /** The remote-target loop of one iteration of `Branches`. */
  method RemotePiecesOf(name: string, bt: BranchTarget, id: CommitId) returns (pieces: seq<FormattedString>)
    requires bt.remoteTargets.Valid()
    ensures pieces == RemotePieces(name, bt, bt.remoteTargets.keys, id)
  {
    var remotes := bt.remoteTargets;
    pieces := [];
    for j := 0 to |remotes.keys|
      invariant pieces == RemotePieces(name, bt, remotes.keys[..j], id)
    {
      var remote := remotes.keys[j];
      var target := remotes.entries[remote];
      assert remotes.keys[..j + 1][..j] == remotes.keys[..j];
      if bt.localTarget != Some(target) && HasAdd(target, id) {
        var piece := [Plain(name), PrependLabel(Plain("@"), "separator"), PrependLabel(Plain(remote), "remote")];
        if IsConflict(target) {
          piece := piece + [PrependLabel(Plain("??"), "divergent")];
        }
        assert Concat(piece) == RemotePiece(name, remote, target);
        pieces := pieces + [Concat(piece)];
      }
    }
    assert remotes.keys[..|remotes.keys|] == remotes.keys;
  }

  /** A remote piece appears iff that remote's target differs from the local
      target and points at the commit. */
  lemma {:induction false} RemotePiecesIff(name: string, bt: BranchTarget, keys: seq<string>, id: CommitId, x: FormattedString)
    requires forall k :: k in keys ==> k in bt.remoteTargets.entries
    ensures x in RemotePieces(name, bt, keys, id) <==>
            exists remote :: remote in keys && RemoteShown(bt, remote, id)
                             && x == RemotePiece(name, remote, bt.remoteTargets.entries[remote])
    decreases |keys|
  {
    if keys != [] {
      var n := |keys|;
      RemotePiecesIff(name, bt, keys[..n - 1], id, x);
      assert forall k :: k in keys <==> k in keys[..n - 1] || k == keys[n - 1];
    }
  }

  /** A remote piece reads `name@remote`, followed by `??` when the remote
      target is conflicted. */
  lemma RemotePieceText(name: string, remote: string, t: RefTarget)
    ensures Flatten(Leaves(RemotePiece(name, remote, t))) == name + "@" + remote + (if IsConflict(t) then "??" else "")
  {
    var s1 := [Plain(name)];
    var s2 := s1 + [PrependLabel(Plain("@"), "separator")];
    var s3 := s2 + [PrependLabel(Plain(remote), "remote")];
    LeavesOfSnoc([], Plain(name));
    assert [] + [Plain(name)] == s1;
    LeavesOfSnoc(s1, PrependLabel(Plain("@"), "separator"));
    LeavesOfSnoc(s2, PrependLabel(Plain(remote), "remote"));
    assert LeavesOf(s3) == [name] + ["@"] + [remote];
    FlattenSnoc([], name);
    assert [] + [name] == [name];
    FlattenSnoc([name], "@");
    FlattenSnoc([name] + ["@"], remote);
    assert Flatten(LeavesOf(s3)) == name + "@" + remote;
    if IsConflict(t) {
      var s4 := s3 + [PrependLabel(Plain("??"), "divergent")];
      assert RemotePiece(name, remote, t).strs == s4;
      LeavesOfSnoc(s3, PrependLabel(Plain("??"), "divergent"));
      FlattenSnoc([name] + ["@"] + [remote], "??");
    } else {
      assert RemotePiece(name, remote, t).strs == s3;
    }
  }

  lemma LeavesOfSnoc(strs: seq<FormattedString>, x: FormattedString)
    ensures LeavesOf(strs + [x]) == LeavesOf(strs) + Leaves(x)
  {
    assert (strs + [x])[..|strs|] == strs;
  }

  lemma FlattenSnoc(texts: seq<string>, x: string)
    ensures Flatten(texts + [x]) == Flatten(texts) + x
  {
    assert (texts + [x])[..|texts|] == texts;
  }

  /** A branch whose only remote target equals the local one shows just its
      name; a second remote at another commit adds the `*` marker. */
  lemma BranchMarkerExample(x: CommitId, y: CommitId)
    requires x != y
    ensures var bt := BranchTarget(Some(Normal(x)), OrderedMap(map["origin" := Normal(x)], ["origin"]));
            LocalPiece("main", bt, x) + RemotePieces("main", bt, bt.remoteTargets.keys, x) == [Concat([Plain("main")])]
    ensures var bt := BranchTarget(Some(Normal(x)),
                                   OrderedMap(map["origin" := Normal(x), "upstream" := Normal(y)], ["origin", "upstream"]));
            LocalPiece("main", bt, x) + RemotePieces("main", bt, bt.remoteTargets.keys, x)
              == [Concat([Plain("main"), Labeled(Plain("*"), ["remote", "diff"])])]
  {
    var bt := BranchTarget(Some(Normal(x)),
                           OrderedMap(map["origin" := Normal(x), "upstream" := Normal(y)], ["origin", "upstream"]));
    assert bt.remoteTargets.entries["upstream"] != Normal(x);
    assert RemoteDiffers(bt.remoteTargets.entries, Normal(x));
    assert PrependLabel(PrependLabel(Plain("*"), "diff"), "remote") == Labeled(Plain("*"), ["remote", "diff"]);
    assert !HasAdd(Normal(y), x);
    assert !RemoteShown(bt, "upstream", x) && !RemoteShown(bt, "origin", x);
    assert ["origin", "upstream"][..1] == ["origin"];
    assert ["origin"][..0] == [];
    assert RemotePieces("main", bt, ["origin"], x) == [];
    assert RemotePieces("main", bt, ["origin", "upstream"], x) == [];
    assert LocalPiece("main", bt, x) == [Concat([Plain("main"), Labeled(Plain("*"), ["remote", "diff"])])];
  }

  // ------------------------------------------------------------------
  // Divergence

  /** The change ids that more than one commit of the history carries,
      computed once and then queried per commit. */
  datatype DivergentProperty = DivergentProperty(divergentChanges: set<ChangeId>)

  /** `DivergentProperty::new`: count the commits of the whole history per
      change id, keep the ids counted more than once. */
  method NewDivergentProperty(history: seq<ChangeId>) returns (p: DivergentProperty)
    ensures forall change :: change in p.divergentChanges <==> multiset(history)[change] > 1
  {
    var counts: map<ChangeId, nat> := map[];
    for i := 0 to |history|
      invariant forall change :: change in counts <==> change in history[..i]
      invariant forall change :: change in counts ==> counts[change] == multiset(history[..i])[change]
    {
      var change := history[i];
      assert history[..i + 1] == history[..i] + [change];
      counts := counts[change := (if change in counts then counts[change] else 0) + 1];
    }
    assert history[..|history|] == history;
    var divergent: set<ChangeId> := {};
    var rest := counts.Keys;
    while rest != {}
      invariant rest <= counts.Keys
      invariant forall change :: change in divergent <==> change in counts && change !in rest && counts[change] > 1
      decreases rest
    {
      var change :| change in rest;
      if counts[change] > 1 {
        divergent := divergent + {change};
      }
      rest := rest - {change};
    }
    p := DivergentProperty(divergent);
  }

  /** `DivergentProperty::extract` */
  predicate IsDivergent(p: DivergentProperty, c: Commit)
  {
    c.changeId in p.divergentChanges
  }

  /** Counted more than once means carried by two distinct positions of the
      history. */
  lemma {:induction false} CountAboveOneIff(history: seq<ChangeId>, change: ChangeId)
    ensures multiset(history)[change] > 1 <==>
            exists i, j :: 0 <= i < j < |history| && history[i] == change && history[j] == change
    decreases |history|
  {
    if history != [] {
      var n := |history|;
      var front := history[..n - 1];
      assert history == front + [history[n - 1]];
      CountAboveOneIff(front, change);
      if history[n - 1] == change {
        if multiset(front)[change] >= 1 {
          var i :| 0 <= i < |front| && front[i] == change;
          assert history[i] == change && history[n - 1] == change;
        }
        if exists i, j :: 0 <= i < j < n && history[i] == change && history[j] == change {
          var i, j :| 0 <= i < j < n && history[i] == change && history[j] == change;
          assert front[i] == change;
          assert change in multiset(front);
        }
      } else {
        if exists i, j :: 0 <= i < j < n && history[i] == change && history[j] == change {
          var i, j :| 0 <= i < j < n && history[i] == change && history[j] == change;
          assert j < n - 1;
          assert front[i] == change && front[j] == change;
        }
      }
    }
  }

  /** Two commits of change B and one of change A: only B is divergent. */
  method DivergenceExample(a: ChangeId, b: ChangeId) returns (aDivergent: bool, bDivergent: bool)
    requires a != b
    ensures !aDivergent && bDivergent
  {
    var p := NewDivergentProperty([a, b, b]);
    assert multiset([a, b, b])[a] == 1 && multiset([a, b, b])[b] == 2;
    aDivergent := a in p.divergentChanges;
    bDivergent := b in p.divergentChanges;
  }
}
