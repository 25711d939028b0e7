/** What a pull and the manager's sync come to, told from the reference that is tracked. */
module PullOutcomes {
  import opened Text
  import opened Objects
  import opened MergeResolution
  import opened RepositoryState
  import opened Operations
  import opened OperationLaws
  import opened MergeOutcomes
  import opened Runs
  import opened Effects
  import opened ManagerCalls

  /** When a pull fails before it merges, and which state it merges in otherwise. */
  lemma PullFails(s: State, e: Remote)
    ensures !e.fetchOk ==> Pull(s, e) == (e.fetched, Err("GIT-FETCH-ERROR"))
    ensures e.fetchOk && (CurrentBranch(e.looked) == None || CurrentBranch(e.looked) == Some("")) ==>
              Pull(s, e) == (e.looked, Err("GIT-PULL-ERROR"))
    ensures e.fetchOk && CurrentBranch(e.looked).Some? && CurrentBranch(e.looked) != Some("") ==>
              Pull(s, e) == Merge(e.merging, e.merge)
  {
  }

  /** What is merged: the branch of the same name at the remote, origin when none is named, or, when
      that was never fetched, what was fetched last. */
  predicate Tracks(refs: map<string, Ref>, remote: string, branch: string, tip: Object) {
    var n := "refs/remotes/" + (if remote == "" then "origin" else remote) + "/" + branch;
    if n in refs then refs[n] == Direct(tip) else "FETCH_HEAD" in refs && refs["FETCH_HEAD"] == Direct(tip)
  }

  lemma TrackedIs(s: State, remote: string, branch: string, tip: Object)
    requires Tracks(s.refs, remote, branch, tip)
    ensures RevParse(s, Rev(TrackingRef(s, remote, branch), None, None)) == Some(tip)
  {
    var t := TrackingRef(s, remote, branch);
    assert t in s.refs && s.refs[t] == Direct(tip);
    assert t != "" && DwimNames(t)[0] == t;
    assert Resolve(s.refs, t, 5) == Some(ResolvedRef(t, tip));
  }

  lemma SameBranch(s: State, s': State)
    requires HeadRef(s') == HeadRef(s)
    ensures HeadId(s') == HeadId(s) && CurrentBranch(s') == CurrentBranch(s)
  {
  }

  /** A pull by itself, on a branch whose counterpart was fetched. */
  ghost predicate PullsAlone(s: State, e: Remote, branch: string, tip: Object) {
    && Valid(s) && RemoteOk(s, e) && Alone(e) && e.fetchOk && StrategyOk(e.merge.opts)
    && CurrentBranch(s) == Some(branch) && branch != "" && Tracks(e.fetched.refs, e.name, branch, tip) && tip.Commit?
  }

  lemma PullMerges(s: State, e: Remote, branch: string, tip: Object)
    requires PullsAlone(s, e, branch, tip)
    ensures Pull(s, e) == Merge(e.fetched, e.merge) && Valid(e.fetched) && HeadId(s).Some?
    ensures Heads(e.fetched, e.merge.rev, HeadId(s).value, tip)
  {
    FetchesKeeps(s, e.fetched);
    SameBranch(s, e.fetched);
    TrackedIs(e.fetched, e.name, branch, tip);
  }

  /** When the fetched commit is above HEAD, a pull makes it HEAD, in step; when it is below, a pull
      only fetches. */
  lemma PullForwards(s: State, e: Remote, branch: string, tip: Object)
    requires PullsAlone(s, e, branch, tip)
    ensures HeadId(s).Some?
    ensures IsAncestor(HeadId(s).value, tip) && HeadId(s) != Some(tip) ==>
              var (s', r) := Pull(s, e);
              && r == Ok(MergeResult(false, true, false, Some(tip), [], []))
              && HeadId(s') == Some(tip) && InSync(s')
    ensures IsAncestor(tip, HeadId(s).value) ==>
              Pull(s, e) == (e.fetched, Ok(MergeResult(true, false, false, None, [], [])))
  {
    PullMerges(s, e, branch, tip);
    var ours := HeadId(s).value;
    BeginAncestry(e.fetched, e.merge.rev, e.merge.opts, e.merge.merged, ours, tip);
    BeginMergeLaw(e.fetched, e.merge.rev, e.merge.opts, e.merge.merged);
  }

  /** When the two have parted and merge cleanly, a pull commits the merged entries on top of both. */
  lemma PullCommits(s: State, e: Remote, branch: string, tip: Object, ix: Index)
    requires PullsAlone(s, e, branch, tip) && e.merge.merged == Some(ix) && ix.conflicts == map[]
    requires HeadId(s).Some? && Parted(HeadId(s).value, tip) && !e.merge.opts.noCommit
    ensures var (s', r) := Pull(s, e);
            && r.Ok? && r.value.commitId.Some? && HeadId(s') == r.value.commitId && InSync(s')
            && r.value.commitId.value.Commit? && r.value.commitId.value.parents == [HeadId(s).value, tip]
            && Flatten(r.value.commitId.value.tree) == ix.entries
  {
    PullMerges(s, e, branch, tip);
    CleanOutcome(e.fetched, e.merge.rev, e.merge.opts, ix, HeadId(s).value, tip);
    BeginMergeLaw(e.fetched, e.merge.rev, e.merge.opts, e.merge.merged);
  }

  // ---- Sync ----

  /** With nobody else about, a sync on a branch brings HEAD to the fetched commit above it, in step,
      and reports the change; with nothing new it reports none. */
  lemma SyncForwards(m: Managed, e: Remote, branch: string, tip: Object)
    requires PullsAlone(m.repo, e, branch, tip)
    ensures HeadId(m.repo).Some?
    ensures IsAncestor(HeadId(m.repo).value, tip) && HeadId(m.repo) != Some(tip) ==>
              var (m', r) := Sync(m, e);
              && HeadId(m'.repo) == Some(tip) && InSync(m'.repo) && InStep(m') && r.Ok?
              && r.value.oldHead == m.lastHead && r.value.newHead == Some(tip)
              && r.value.merged == Some(MergeResult(false, true, false, Some(tip), [], []))
              && (InStep(m) ==> r.value.changes)
    ensures IsAncestor(tip, HeadId(m.repo).value) ==>
              var (m', r) := Sync(m, e);
              && m'.repo == e.fetched && InStep(m') && r.Ok? && r.value.newHead == HeadId(m.repo)
              && r.value.merged == Some(MergeResult(true, false, false, None, [], []))
              && (InStep(m) ==> !r.value.changes)
  {
    PullForwards(m.repo, e, branch, tip);
    FetchesKeeps(m.repo, e.fetched);
    SyncLaw(m, e);
  }

  // ---- The other calls of the manager ----

  /** What can be seen of a call that returned. */
  lemma CallShows(m: Managed, call: Call, m': Managed)
    requires Valid(m.repo) && Returns(m, call, m')
    ensures match call
            case WriteConfig(path, data) => ReadFile(m'.repo, path) == Ok(Some(data))
            case DeleteConfig(path) => path !in m'.repo.work
            case NewEnvironment(name, _, _) => "refs/heads/" + name in m'.repo.refs
            case TagState(name, _, _) => "refs/tags/" + name in m'.repo.refs
            case SwitchTo(rev) =>
              var c := CheckedOut(m.repo, rev);
              c.Some? && c.value.Commit? && m'.repo.work == Flatten(c.value.tree)
            case Publish(info, pushed, push, oid) =>
              CommitAll(m.repo, info).1 == Ok(oid) && m'.repo == pushed && m'.lastHead == Some(oid)
            case Apply(c) => Merge(m.repo, c).1.Ok? && m'.repo == Merge(m.repo, c).0
            case SyncWith(e, report) => Sync(m, e) == (m', Ok(report))
            case Propose(p, oid) => ProposeLocally(m.repo, p).1 == Ok(oid) && m'.repo == p.pushed
  {
    match call {
      case WriteConfig(path, data) => WriteThenRead(m.repo, path, data);
      case DeleteConfig(path) => DeleteThenRead(m.repo, path);
      case SwitchTo(rev) => CheckoutLaw(m.repo, rev);
      case _ =>
    }
  }
}
