/** What the phases of a merge return and leave, told from the index, the heads and the answers
    alone. */
module MergeOutcomes {
  import opened Text
  import opened Paths
  import opened Objects
  import opened TreeBuilding
  import opened MergeResolution
  import opened RepositoryState
  import opened Operations
  import opened OperationLaws

  predicate Holds(m: map<string, Object>, p: string, b: Object) { p in m && m[p] == b }

  lemma OverlayAt(base: map<string, Object>, added: map<string, Object>, p: string, b: Object)
    requires base.Keys !! added.Keys
    ensures Holds(Overlay(base, added), p, b) <==>
            || (p in added && added[p] == b && forall q <- added :: !DirPrefix(p, q))
            || (p in base && base[p] == b && forall q <- added :: !DirPrefix(p, q) && !DirPrefix(q, p))
  {
    assert p in added ==> (Stays(p, added.Keys) <==> forall q <- added :: !DirPrefix(p, q));
    assert p !in added ==> (Stays(p, added.Keys) <==> forall q <- added :: !DirPrefix(p, q) && !DirPrefix(q, p));
  }

  // ---- By side ----

  /** The first phase ended with a merge commit. */
  predicate CommitsMerge(r: Result<Begun>) {
    Committed(r) && !r.value.result.fastForward
  }

  lemma SideFiles(ix: Index, useOurs: bool, p: string, b: Object)
    requires ValidIndex(ix)
    ensures Holds(Overlay(ix.entries, SideBlobs(ix, useOurs)), p, b) <==>
            var added := SideBlobs(ix, useOurs);
            || (p in added && added[p] == b && forall q <- added :: !DirPrefix(p, q))
            || (p in ix.entries && ix.entries[p] == b
                && forall q <- added :: !DirPrefix(p, q) && !DirPrefix(q, p))
  {
    OverlayAt(ix.entries, SideBlobs(ix, useOurs), p, b);
  }

  lemma MergeCommitFiles(s: State, rev: Rev, opts: MergeOpts, merged: Option<Index>)
    requires Valid(s) && merged.Some? && ValidIndex(merged.value)
    requires CommitsMerge(BeginMerge(s, rev, opts, merged).1)
    ensures var c := BeginMerge(s, rev, opts, merged).1.value.result.commitId.value;
            c.Commit? && Flatten(c.tree) == MergedFiles(merged.value, opts)
  {
    BeginMergeLaw(s, rev, opts, merged);
  }

  /** A merge with strategy "ours" commits a blob at a path just when it is our blob of a conflict
      there and no such blob lies below it, or a merged entry that none of our blobs collides with. */
  lemma OursFiles(s: State, rev: Rev, opts: MergeOpts, ix: Index, p: string, b: Object)
    requires Valid(s) && ValidIndex(ix) && opts.strategy == "ours"
    requires CommitsMerge(BeginMerge(s, rev, opts, Some(ix)).1)
    ensures var c := BeginMerge(s, rev, opts, Some(ix)).1.value.result.commitId.value;
            && c.Commit?
            && ((p in Flatten(c.tree) && Flatten(c.tree)[p] == b) <==>
                || (p in ix.conflicts && ix.conflicts[p].ours == Some(b)
                    && forall q <- ix.conflicts | ix.conflicts[q].ours.Some? :: !DirPrefix(p, q))
                || (p in ix.entries && ix.entries[p] == b
                    && forall q <- ix.conflicts | ix.conflicts[q].ours.Some? :: !DirPrefix(p, q) && !DirPrefix(q, p)))
  {
    MergeCommitFiles(s, rev, opts, Some(ix));
    SideFiles(ix, true, p, b);
    var added := SideBlobs(ix, true);
    assert forall q :: q in added <==> q in ix.conflicts && ix.conflicts[q].ours.Some?;
    if ix.conflicts == map[] { assert added == map[]; }
  }

  /** The same with their blobs for strategy "theirs". */
  lemma TheirsFiles(s: State, rev: Rev, opts: MergeOpts, ix: Index, p: string, b: Object)
    requires Valid(s) && ValidIndex(ix) && opts.strategy == "theirs"
    requires CommitsMerge(BeginMerge(s, rev, opts, Some(ix)).1)
    ensures var c := BeginMerge(s, rev, opts, Some(ix)).1.value.result.commitId.value;
            && c.Commit?
            && ((p in Flatten(c.tree) && Flatten(c.tree)[p] == b) <==>
                || (p in ix.conflicts && ix.conflicts[p].theirs == Some(b)
                    && forall q <- ix.conflicts | ix.conflicts[q].theirs.Some? :: !DirPrefix(p, q))
                || (p in ix.entries && ix.entries[p] == b
                    && forall q <- ix.conflicts | ix.conflicts[q].theirs.Some? ::
                         !DirPrefix(p, q) && !DirPrefix(q, p)))
  {
    MergeCommitFiles(s, rev, opts, Some(ix));
    SideFiles(ix, false, p, b);
    var added := SideBlobs(ix, false);
    assert forall q :: q in added <==> q in ix.conflicts && ix.conflicts[q].theirs.Some?;
    if ix.conflicts == map[] { assert added == map[]; }
  }

  // ---- The first phase ----

  /** The heads, when both are commits. */
  predicate Heads(s: State, rev: Rev, ours: Object, theirs: Object) {
    HeadId(s) == Some(ours) && RevParse(s, rev) == Some(theirs) && theirs.Commit?
  }

  predicate StrategyOk(opts: MergeOpts) {
    || opts.strategy in {"detect", "ours", "theirs"}
    || (opts.strategy == "callback" && opts.hasResolver)
  }

  /** When the first phase fails, with which code; it then changes nothing. */
  lemma BeginFails(s: State, rev: Rev, opts: MergeOpts, merged: Option<Index>)
    requires Valid(s) && (merged.Some? ==> ValidIndex(merged.value))
    ensures var (s', r) := BeginMerge(s, rev, opts, merged);
            && (r.Ok? <==>
                && StrategyOk(opts) && HeadId(s).Some? && RevParse(s, rev).Some? && RevParse(s, rev).value.Commit?
                && (merged.Some? || IsAncestor(RevParse(s, rev).value, HeadId(s).value)
                    || IsAncestor(HeadId(s).value, RevParse(s, rev).value)))
            && (r.Err? ==> s' == s)
            && (r.Err? ==> r.error == if StrategyOk(opts) then "GIT-MERGE-ERROR" else "GIT-MERGE-OPTION-ERROR")
  {
    HeadIsCommit(s);
    RevParseInStore(s, rev);
    var head, theirs := HeadId(s), RevParse(s, rev);
    if OptsOk(opts) && head.Some? && theirs.Some? && theirs.value.Commit? && merged.Some?
       && !IsAncestor(theirs.value, head.value) && !IsAncestor(head.value, theirs.value) {
      MergeIndexedLaw(s, head.value, theirs.value, opts, merged.value);
    }
  }

  /** Without a merge to make: nothing happens, or HEAD moves to their commit, with its files. */
  lemma BeginAncestry(s: State, rev: Rev, opts: MergeOpts, merged: Option<Index>, ours: Object, theirs: Object)
    requires Valid(s) && StrategyOk(opts) && Heads(s, rev, ours, theirs)
    ensures IsAncestor(theirs, ours) ==>
              BeginMerge(s, rev, opts, merged) == (s, Ok(Done(MergeResult(true, false, false, None, [], []))))
    ensures IsAncestor(ours, theirs) && ours != theirs ==>
              BeginMerge(s, rev, opts, merged) ==
              (s.(work := Flatten(theirs.tree), refs := s.refs[HeadTarget(s) := Direct(theirs)]),
               Ok(Done(MergeResult(false, true, false, Some(theirs), [], []))))
  {
    HeadIsCommit(s);
    AncestorsBothWays(ours, theirs);
  }

  /** The heads have parted. */
  predicate Parted(ours: Object, theirs: Object) {
    !IsAncestor(ours, theirs) && !IsAncestor(theirs, ours)
  }

  /** A merge commit of both heads with this message, where HEAD is, its files checked out; or no
      reference and no file changed. */
  predicate LeavesMerge(s: State, s': State, id: Option<Object>, wanted: bool, ours: Object, theirs: Object,
                        info: string) {
    && (id.Some? <==> wanted)
    && (id.Some? ==>
          && id.value.Commit? && id.value.parents == [ours, theirs] && id.value.info == info
          && s'.refs == s.refs[HeadTarget(s) := Direct(id.value)] && s'.work == Flatten(id.value.tree))
    && (id.None? ==> s'.refs == s.refs && s'.work == s.work)
  }

  lemma SettledOutcome(s: State, ours: Object, theirs: Object, ix: Index, opts: MergeOpts, conflicts: bool,
      paths: seq<string>)
    requires Valid(s) && ValidIndex(ix) && ix.entries.Values <= s.odb && HeadId(s) == Some(ours)
    requires ours.Commit? && ours in s.odb && theirs.Commit? && theirs in s.odb && ix.conflicts == map[]
    ensures var (s', r) := Settled(s, ours, theirs, ix, opts, conflicts, paths);
            && r.Ok? && r.value.Done?
            && r.value.result == MergeResult(false, false, conflicts, r.value.result.commitId, [], paths)
            && LeavesMerge(s, s', r.value.result.commitId, !opts.noCommit, ours, theirs, opts.info)
  {
    CreateMergeCommitKeeps(s, ours, theirs, ix, opts.info);
    RoundTripIffPrefixFree(ix.entries);
  }

  lemma IndexStored(s: State, ix: Index) returns (s1: State)
    requires Valid(s) && ValidIndex(ix)
    ensures s1 == s.(odb := s.odb + IndexBlobs(ix)) && Valid(s1) && HeadId(s1) == HeadId(s)
    ensures HeadTarget(s1) == HeadTarget(s) && s.odb <= s1.odb && ix.entries.Values <= s1.odb
  {
    IndexBlobsClosed(s, ix);
    s1 := s.(odb := s.odb + IndexBlobs(ix));
  }

  lemma BeginsIndexed(s: State, rev: Rev, opts: MergeOpts, ix: Index, ours: Object, theirs: Object)
    requires Valid(s) && StrategyOk(opts) && Heads(s, rev, ours, theirs) && Parted(ours, theirs)
    ensures BeginMerge(s, rev, opts, Some(ix)) == MergeIndexed(s, ours, theirs, opts, ix)
    ensures ours.Commit? && ours in s.odb && theirs in s.odb
  {
    HeadIsCommit(s);
    RevParseInStore(s, rev);
    StrategyIs(opts);
  }

  lemma StrategyIs(opts: MergeOpts)
    ensures StrategyOk(opts) <==> OptsOk(opts)
  {
  }

  /** Without conflicts. */
  lemma CleanOutcome(s: State, rev: Rev, opts: MergeOpts, ix: Index, ours: Object, theirs: Object)
    requires Valid(s) && ValidIndex(ix) && StrategyOk(opts) && Heads(s, rev, ours, theirs) && Parted(ours, theirs)
    requires ix.conflicts == map[]
    ensures var (s', r) := BeginMerge(s, rev, opts, Some(ix));
            && r.Ok? && r.value.Done?
            && r.value.result == MergeResult(false, false, false, r.value.result.commitId, [], [])
            && LeavesMerge(s, s', r.value.result.commitId, !opts.noCommit, ours, theirs, opts.info)
            && (r.value.result.commitId.Some? ==> Flatten(r.value.result.commitId.value.tree) == ix.entries)
  {
    BeginsIndexed(s, rev, opts, ix, ours, theirs);
    var s1 := IndexStored(s, ix);
    SettledOutcome(s1, ours, theirs, ix, opts, false, []);
    if CommitsMerge(BeginMerge(s, rev, opts, Some(ix)).1) {
      MergeCommitFiles(s, rev, opts, Some(ix));
    }
  }

  /** Conflicts settled with one side: every conflicted path counts as resolved. */
  lemma SideOutcome(s: State, rev: Rev, opts: MergeOpts, ix: Index, ours: Object, theirs: Object)
    requires Valid(s) && ValidIndex(ix) && Heads(s, rev, ours, theirs) && Parted(ours, theirs)
    requires ix.conflicts != map[] && opts.strategy in {"ours", "theirs"}
    ensures var (s', r) := BeginMerge(s, rev, opts, Some(ix));
            && r.Ok? && r.value.Done?
            && r.value.result ==
               MergeResult(false, false, true, r.value.result.commitId, [], SortedKeys(ix.conflicts.Keys))
            && LeavesMerge(s, s', r.value.result.commitId, !opts.noCommit, ours, theirs, opts.info)
  {
    BeginsIndexed(s, rev, opts, ix, ours, theirs);
    var s1 := IndexStored(s, ix);
    var useOurs := opts.strategy == "ours";
    TakeSideBlobs(ix, useOurs);
    SettledOutcome(s1, ours, theirs, TakeSide(ix, useOurs), opts, true, SortedKeys(ix.conflicts.Keys));
  }

  /** All conflicts with their stages, in path order. */
  predicate ListsConflicts(ix: Index, cs: seq<Conflict>) {
    var ks := SortedKeys(ix.conflicts.Keys);
    |cs| == |ks| && forall i | 0 <= i < |ks| :: cs[i] == Conflict(ks[i], ix.conflicts[ks[i]])
  }

  /** Conflicts only reported, or kept for the resolver. */
  lemma OpenOutcome(s: State, rev: Rev, opts: MergeOpts, ix: Index, ours: Object, theirs: Object)
    requires Valid(s) && ValidIndex(ix) && StrategyOk(opts) && Heads(s, rev, ours, theirs) && Parted(ours, theirs)
    requires ix.conflicts != map[] && opts.strategy in {"detect", "callback"}
    ensures var (s', r) := BeginMerge(s, rev, opts, Some(ix));
            && s'.refs == s.refs && s'.work == s.work && r.Ok?
            && (opts.strategy == "detect" ==>
                  && r.value.Done? && ListsConflicts(ix, r.value.result.conflictList)
                  && r.value.result == MergeResult(false, false, true, None, r.value.result.conflictList, []))
            && (opts.strategy == "callback" ==>
                  r.value == AwaitAnswers(Pending(ours, theirs, ix, opts.noCommit, opts.info)))
  {
    BeginsIndexed(s, rev, opts, ix, ours, theirs);
  }

  // ---- The last phase ----

  /** The resolver settled the conflict of this path. */
  predicate Answered(ix: Index, answers: seq<Answer>, path: string)
    requires |answers| == |ix.conflicts|
  {
    var ks := SortedKeys(ix.conflicts.Keys);
    exists i | 0 <= i < |ks| :: ks[i] == path && answers[i].Content?
  }

  /** It declined it. */
  predicate Open(ix: Index, answers: seq<Answer>, c: Conflict)
    requires |answers| == |ix.conflicts|
  {
    var ks := SortedKeys(ix.conflicts.Keys);
    exists i | 0 <= i < |ks| :: c == Conflict(ks[i], ix.conflicts[ks[i]]) && answers[i].Declined?
  }

  function ConflictPaths(cs: seq<Conflict>): seq<string> {
    seq(|cs|, i requires 0 <= i < |cs| => cs[i].path)
  }

  /** A last phase that returns lists the settled paths and the declined conflicts, each once and in
      path order; together they are all conflicts. It commits what is there if nothing was declined
      and committing was not disabled. */
  lemma FinishOutcome(s: State, p: Pending, answers: seq<Answer>)
    requires |answers| == |p.index.conflicts| && FinishMerge(s, p, answers).1.Ok?
    ensures var result := FinishMerge(s, p, answers).1.value;
            && result == MergeResult(false, false, true, result.commitId, result.conflictList, result.resolvedPaths)
            && Ascending(result.resolvedPaths) && Ascending(ConflictPaths(result.conflictList))
            && (forall path :: path in result.resolvedPaths <==> Answered(p.index, answers, path))
            && (forall c :: c in result.conflictList <==> Open(p.index, answers, c))
            && |result.resolvedPaths| + |result.conflictList| == |answers|
            && (result.commitId.Some? <==> result.conflictList == [] && !p.noCommit)
  {
    var cs, ks := Conflicts(p.index), SortedKeys(p.index.conflicts.Keys);
    AnswersOfIndex(p.index, answers);
    var res, open := Resolutions(cs, answers), Unresolved(cs, answers);
    var result := FinishMerge(s, p, answers).1.value;
    ReturnedLists(s, p, answers);
    forall path ensures path in result.resolvedPaths <==> Answered(p.index, answers, path) {
      AnsweredIs(p.index, answers, path);
    }
    forall c ensures c in result.conflictList <==> Open(p.index, answers, c) {
      UnresolvedAre(cs, answers, c);
    }
    OpenOrdered(cs, answers);
  }

  /** A last phase that commits leaves a merge commit where HEAD is; one that does not, nothing. */
  lemma FinishLeaves(s: State, p: Pending, answers: seq<Answer>)
    requires Valid(s) && ValidPending(s, p) && |answers| == |p.index.conflicts|
    ensures var (s', r) := FinishMerge(s, p, answers);
            r.Ok? ==> LeavesMerge(s, s', r.value.commitId, r.value.conflictList == [] && !p.noCommit,
                                  p.ours, p.theirs, p.info)
  {
    AnswersApplied(s, p, answers);
    var (s1, ix, result) := Applied(s, p, answers);
    ConcludeLeaves(s1, p, ix, result);
    var (s', r) := Conclude(s1, p, ix, result);
    if r.Ok? {
      LeavesFrom(s, s1, s', r.value.commitId, r.value.conflictList == [] && !p.noCommit, p);
    }
  }

  lemma LeavesFrom(s: State, s1: State, s': State, id: Option<Object>, wanted: bool, p: Pending)
    requires s1.refs == s.refs && s1.work == s.work && LeavesMerge(s1, s', id, wanted, p.ours, p.theirs, p.info)
    ensures LeavesMerge(s, s', id, wanted, p.ours, p.theirs, p.info)
  {
  }

  lemma ConcludeLeaves(s: State, p: Pending, ix: Index, result: MergeResult)
    requires Concludable(s, p, ix) && result.commitId == None
    requires ix.conflicts == map[] <==> result.conflictList == []
    ensures var (s', r) := Conclude(s, p, ix, result);
            r.Ok? ==> LeavesMerge(s, s', r.value.commitId, r.value.conflictList == [] && !p.noCommit,
                                  p.ours, p.theirs, p.info)
  {
    CreateMergeCommitKeeps(s, p.ours, p.theirs, ix, p.info);
    if ix.conflicts == map[] { RoundTripIffPrefixFree(ix.entries); }
  }

  lemma AnsweredIs(ix: Index, answers: seq<Answer>, path: string)
    requires |answers| == |ix.conflicts|
    ensures |Conflicts(ix)| == |answers|
    ensures path in Resolutions(Conflicts(ix), answers) <==> Answered(ix, answers, path)
  {
    ConflictsDistinct(ix);
    AnswersPartition(Conflicts(ix), answers);
    PathsAnswered(Conflicts(ix), SortedKeys(ix.conflicts.Keys), answers, path);
  }

  lemma PathsAnswered(cs: seq<Conflict>, ks: seq<string>, answers: seq<Answer>, path: string)
    requires |cs| == |ks| == |answers| && forall i | 0 <= i < |cs| :: cs[i].path == ks[i]
    ensures path in AnsweredPaths(cs, answers) <==>
            exists i | 0 <= i < |ks| :: ks[i] == path && answers[i].Content?
  {
    if i :| 0 <= i < |ks| && ks[i] == path && answers[i].Content? {
      assert cs[i].path == path;
    }
  }

  lemma {:induction false} OpenOrdered(cs: seq<Conflict>, answers: seq<Answer>)
    requires |cs| == |answers| && Ascending(ConflictPaths(cs))
    ensures Ascending(ConflictPaths(Unresolved(cs, answers)))
  {
    if cs != [] {
      var n := |cs| - 1;
      var before := Unresolved(cs[..n], answers[..n]);
      assert ConflictPaths(cs)[..n] == ConflictPaths(cs[..n]);
      OpenOrdered(cs[..n], answers[..n]);
      if answers[n].Declined? {
        forall i | 0 <= i < |before| ensures Below(before[i].path, cs[n].path) {
          UnresolvedAre(cs[..n], answers[..n], before[i]);
          var j :| 0 <= j < n && cs[..n][j] == before[i];
          assert ConflictPaths(cs)[j] == before[i].path && ConflictPaths(cs)[n] == cs[n].path;
        }
        assert ConflictPaths(before + [cs[n]]) == ConflictPaths(before) + [cs[n].path];
      } else {
        assert Unresolved(cs, answers) == before;
      }
    }
  }

  /** The answer to the conflict of this path. */
  predicate Gives(ix: Index, answers: seq<Answer>, path: string, b: Object)
    requires |answers| == |ix.conflicts|
  {
    var ks := SortedKeys(ix.conflicts.Keys);
    exists i | 0 <= i < |ks| :: ks[i] == path && answers[i].Content? && b == Blob(answers[i].data)
  }

  /** A last phase that commits puts a blob at a path just when the answer to the conflict there has
      this content and no conflict lies below it, or it is a merged entry no conflict collides with. */
  lemma AnsweredContents(s: State, p: Pending, answers: seq<Answer>, path: string, b: Object)
    requires Valid(s) && ValidPending(s, p) && |answers| == |p.index.conflicts|
    requires FinishCommitted(FinishMerge(s, p, answers).1)
    ensures var c, ix := FinishMerge(s, p, answers).1.value.commitId.value, p.index;
            && c.Commit? && c.parents == [p.ours, p.theirs]
            && ((path in Flatten(c.tree) && Flatten(c.tree)[path] == b) <==>
                || (Gives(ix, answers, path, b) && forall q <- ix.conflicts :: !DirPrefix(path, q))
                || (path in ix.entries && ix.entries[path] == b
                    && forall q <- ix.conflicts :: !DirPrefix(path, q) && !DirPrefix(q, path)))
  {
    var ix, cs := p.index, Conflicts(p.index);
    FinishMergeLaw(s, p, answers);
    var res := Resolutions(cs, answers);
    ReturnedLists(s, p, answers);
    AllAnswered(ix, answers);
    GivesIs(ix, answers, path, b);
    OverlayAt(ix.entries, res, path, b);
  }

  lemma AllAnswered(ix: Index, answers: seq<Answer>)
    requires |answers| == |ix.conflicts| && |Conflicts(ix)| == |answers| && Unresolved(Conflicts(ix), answers) == []
    ensures Resolutions(Conflicts(ix), answers).Keys == ix.conflicts.Keys
  {
    AnswersOfIndex(ix, answers);
    assert OpenPaths([]) == {};
  }

  lemma GivesIs(ix: Index, answers: seq<Answer>, path: string, b: Object)
    requires |answers| == |ix.conflicts|
    ensures |Conflicts(ix)| == |answers|
    ensures Holds(Resolutions(Conflicts(ix), answers), path, b) <==> Gives(ix, answers, path, b)
  {
    var cs, ks := Conflicts(ix), SortedKeys(ix.conflicts.Keys);
    var res := Resolutions(cs, answers);
    ConflictsDistinct(ix);
    AnsweredIs(ix, answers, path);
    AscendingDistinct(ks);
    forall i | 0 <= i < |ks| && answers[i].Content? ensures Holds(res, ks[i], Blob(answers[i].data)) {
      ResolutionContent(cs, answers, i);
    }
  }

  /** A whole merge whose resolver settles every conflict commits when HEAD is still where it was on
      its return, and fails when HEAD has moved. */
  lemma ResolvedMerge(s: State, c: MergeCall, ix: Index, ours: Object, theirs: Object)
    requires Valid(s) && ValidIndex(ix) && c.merged == Some(ix) && MergeCallOk(s, c)
    requires Heads(s, c.rev, ours, theirs) && Parted(ours, theirs) && ix.conflicts != map[]
    requires c.opts.strategy == "callback" && c.opts.hasResolver && !c.opts.noCommit
    requires |c.answers| == |ix.conflicts| && forall a <- c.answers :: a.Content?
    ensures var (s', r) := Merge(s, c);
            && HeadId(c.meanwhile).Some? && (r.Ok? <==> HeadId(c.meanwhile) == HeadId(s))
            && (r.Ok? ==> r.value.commitId.Some? && HeadId(s') == r.value.commitId && InSync(s'))
            && (r.Err? ==> s'.refs == c.meanwhile.refs && s'.work == c.meanwhile.work)
  {
    var p := Pending(ours, theirs, ix, c.opts.noCommit, c.opts.info);
    OpenOutcome(s, c.rev, c.opts, ix, ours, theirs);
    BeginMergeLaw(s, c.rev, c.opts, c.merged);
    assert ValidPending(c.meanwhile, p);
    FinishMergeLaw(c.meanwhile, p, c.answers);
    NoneDeclined(Conflicts(ix), c.answers);
  }

  lemma {:induction false} NoneDeclined(cs: seq<Conflict>, answers: seq<Answer>)
    requires |cs| == |answers| && forall a <- answers :: a.Content?
    ensures Unresolved(cs, answers) == []
  {
    if cs != [] {
      assert answers[|cs| - 1] in answers;
      NoneDeclined(cs[..|cs| - 1], answers[..|cs| - 1]);
    }
  }

  /** A resolver that fails, or is cancelled, leaves what others have made of the repository. */
  lemma UnansweredMerge(s: State, c: MergeCall, ix: Index, ours: Object, theirs: Object)
    requires Valid(s) && ValidIndex(ix) && c.merged == Some(ix)
    requires Heads(s, c.rev, ours, theirs) && Parted(ours, theirs) && ix.conflicts != map[]
    requires c.opts.strategy == "callback" && c.opts.hasResolver && |c.answers| != |ix.conflicts|
    ensures Merge(s, c) == (c.meanwhile, Err("resolver"))
  {
    OpenOutcome(s, c.rev, c.opts, ix, ours, theirs);
  }
}
