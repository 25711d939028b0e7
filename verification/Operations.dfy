/** What each operation of a virtual repository does to its state, and how libgit2 answers
    it. Errors carry the code of the exception raised. */
module Operations {
  import opened Text
  import opened Paths
  import opened Objects
  import opened TreeBuilding
  import opened MergeResolution
  import opened RepositoryState
  import opened TreeStoring

  // ---- Files ----

  function WriteFile(s: State, path: string, data: Bytes): (State, Result<()>) {
    if !ValidRepoPath(path) then (s, Err("GIT-PATH-ERROR"))
    else (s.(odb := s.odb + {Blob(data)}, work := s.work[path := Blob(data)]), Ok(()))
  }

  /** Only the working entry goes; what HEAD holds stays readable. */
  function DeleteFile(s: State, path: string): (State, Result<()>) {
    if !ValidRepoPath(path) then (s, Err("GIT-PATH-ERROR"))
    else (s.(work := s.work - {path}), Ok(()))
  }

  /** The content of a file, nothing when there is none: the working map over HEAD's tree. */
  function ReadFile(s: State, path: string): Result<Option<Bytes>> {
    if !ValidRepoPath(path) then Err("GIT-PATH-ERROR")
    else if path in s.work then
      if s.work[path].Blob? && s.work[path] in s.odb then Ok(Some(s.work[path].data)) else Err("GIT-READ-ERROR")
    else match HeadId(s)
      case None => Ok(None)
      case Some(c) =>
        if !c.Commit? || c !in s.odb then Err("GIT-READ-ERROR")
        else match EntryByPath(c.tree, path)
          case None => Ok(None)
          case Some(o) => if o.Blob? then Ok(Some(o.data)) else Err("GIT-READ-ERROR")
  }

  predicate Readable(s: State, path: string) {
    ReadFile(s, path).Ok? && ReadFile(s, path).value.Some?
  }

  /** The blobs of HEAD's tree, none without a HEAD. */
  function HeadFiles(s: State): map<string, Object> {
    match HeadId(s)
    case Some(c) => if c.Commit? then Flatten(c.tree) else map[]
    case None => map[]
  }

  // ---- Commits ----

  /** Creating a commit object and moving a reference to it. The reference does not move
      unless its tip is the first parent. When a new reference is refused, the commit stays in the
      store. */
  function CommitCreate(s: State, updateRef: string, tree: Object, parents: seq<Object>, info: string)
    : (State, Result<Object>)
  {
    var tip := Resolve(s.refs, updateRef, 10);
    if tip.Some? && (parents == [] || parents[0] != tip.value.id) then (s, Err("modified"))
    else if tree !in s.odb || !(forall p <- parents :: p in s.odb) then (s, Err("missing object"))
    else
      var c := Object.Commit(tree, parents, info);
      var name := if tip.Some? then tip.value.name else Terminal(s.refs, updateRef, 10);
      var s1 := s.(odb := s.odb + {c});
      if tip.Some? || RefFree(s, name) then (s1.(refs := s.refs[name := Direct(c)]), Ok(c)) else (s1, Err("refused"))
  }

  /** Committing a stored tree: on top of HEAD, or as the first commit of the main branch. */
  function CommitTree(s: State, tree: Object, info: string): (State, Result<Object>) {
    match HeadId(s)
    case Some(parent) =>
      var (s', r) := CommitCreate(s, HeadTarget(s), tree, [parent], info);
      (s', if r.Ok? then r else Err("GIT-COMMIT-ERROR"))
    case None =>
      var (s', r) := CommitCreate(s, MAIN, tree, [], info);
      if r.Ok? then (s'.(refs := s'.refs[HEAD := Symbolic(MAIN)]), r) else (s', Err("GIT-COMMIT-ERROR"))
  }

  predicate AllStorable<T>(m: map<string, T>) {
    forall p <- m :: StorablePath(p)
  }

  /** The working map as directories. */
  function WorkDirs(s: State): Dir { Fill(SortedKeys(s.work.Keys), s.work) }

  /** Committing the working map. When a path cannot be stored, the trees written before the
      first unacceptable name stay in the store. */
  function CommitAll(s: State, info: string): (State, Result<Object>) {
    if s.work == map[] then (s, Err("GIT-COMMIT-ERROR"))
    else
      var s1 := s.(odb := s.odb + Stored(WorkDirs(s)));
      if NamesOk(WorkDirs(s)) then CommitTree(s1, Build(WorkDirs(s)), info) else (s1, Err("GIT-COMMIT-ERROR"))
  }

  // ---- Branches and tags ----

  /** `nameOk` is libgit2's verdict on the branch name. */
  function CreateBranch(s: State, name: string, nameOk: bool, from: Option<Rev>): (State, Result<()>) {
    var target := if from.Some? && from.value.text != "" then RevParse(s, from.value) else HeadId(s);
    if target.None? || !target.value.Commit? || !nameOk || Branch(name) in s.refs || !RefFree(s, Branch(name))
    then (s, Err("GIT-BRANCH-ERROR"))
    else (s.(refs := s.refs[Branch(name) := Direct(target.value)]), Ok(()))
  }

  /** A branch goes, unless HEAD is on it. */
  function DeleteBranch(s: State, name: string): (State, Result<()>) {
    if Branch(name) !in s.refs || HeadTarget(s) == Branch(name) then (s, Err("GIT-BRANCH-ERROR"))
    else (s.(refs := s.refs - {Branch(name)}), Ok(()))
  }

  /** A tag, annotated when a message is given. The tag object stays in the store when the
      reference is refused. */
  function CreateTag(s: State, name: string, nameOk: bool, note: Option<string>, from: Option<Rev>)
    : (State, Result<()>)
  {
    var target := if from.Some? && from.value.text != "" then RevParse(s, from.value) else HeadId(s);
    if target.None? || !nameOk || TagRef(name) in s.refs then (s, Err("GIT-TAG-ERROR"))
    else
      var o := if note.Some? && note.value != "" then Object.Tag(target.value, note.value) else target.value;
      var s1 := s.(odb := s.odb + {o});
      if RefFree(s, TagRef(name)) then (s1.(refs := s.refs[TagRef(name) := Direct(o)]), Ok(()))
      else (s1, Err("GIT-TAG-ERROR"))
  }

  /** The working map becomes the tree of the commit the text resolves to; HEAD becomes the
      branch of that name when there is one, else the commit itself. */
  function Checkout(s: State, rev: Rev): (State, Result<()>) {
    match RevParse(s, rev)
    case None => (s, Err("GIT-CHECKOUT-ERROR"))
    case Some(o) =>
      match Peel(o)
      case None => (s, Err("GIT-CHECKOUT-ERROR"))
      case Some(c) =>
        var head := if Branch(rev.text) in s.refs then Symbolic(Branch(rev.text)) else Direct(c);
        (s.(work := Flatten(c.tree), refs := s.refs[HEAD := head]), Ok(()))
  }

  /** What a fetch or push may do here: new objects, and references other than HEAD and the
      branches. */
  ghost predicate Fetches(s: State, s': State) {
    && s'.work == s.work && s'.onDisk == s.onDisk && s.odb <= s'.odb && Closed(s'.odb)
    && (forall n <- s'.refs :: s'.refs[n].Direct? ==> s'.refs[n].id in s'.odb)
    && (forall n | n == HEAD || IsBranchRef(n) ::
          (n in s.refs <==> n in s'.refs) && (n in s.refs ==> s'.refs[n] == s.refs[n]))
  }

  // ---- Merging ----

  datatype MergeOpts = MergeOpts(strategy: string, hasResolver: bool, noCommit: bool, info: string)

  datatype MergeResult = MergeResult(upToDate: bool, fastForward: bool, conflicts: bool, commitId: Option<Object>,
                                     conflictList: seq<Conflict>, resolvedPaths: seq<string>)

  /** A merge whose lock is released while its conflicts are shown to the resolver. */
  datatype Pending = Pending(ours: Object, theirs: Object, index: Index, noCommit: bool, info: string)

  datatype Begun = Done(result: MergeResult) | AwaitAnswers(pending: Pending)

  const STRATEGIES := {"detect", "ours", "theirs", "callback"}

  /** Writing the merged tree, committing it on top of `ours` and checking it out. */
  function CreateMergeCommit(s: State, ours: Object, theirs: Object, ix: Index, info: string): (State, Result<Object>) {
    if ix.conflicts != map[] then (s, Err("GIT-MERGE-ERROR"))
    else
      var tree := TreeOf(ix.entries);
      var s1 := s.(odb := s.odb + Subtrees(tree));
      var (s2, r) := CommitCreate(s1, HeadTarget(s), tree, [ours, theirs], info);
      match r
      case Err(_) => (s2, Err("GIT-MERGE-ERROR"))
      case Ok(c) => (s2.(work := ix.entries), Ok(c))
  }

  function Settled(s: State, ours: Object, theirs: Object, ix: Index, opts: MergeOpts, conflicts: bool,
      paths: seq<string>)
    : (State, Result<Begun>)
  {
    if opts.noCommit then (s, Ok(Done(MergeResult(false, false, conflicts, None, [], paths))))
    else
      var (s', r) := CreateMergeCommit(s, ours, theirs, ix, opts.info);
      match r
      case Err(e) => (s', Err(e))
      case Ok(c) => (s', Ok(Done(MergeResult(false, false, conflicts, Some(c), [], paths))))
  }

  predicate OptsOk(opts: MergeOpts) {
    opts.strategy in STRATEGIES && (opts.strategy == "callback" ==> opts.hasResolver)
  }

  /** A merge of two commits neither of which is above the other, with the index libgit2
      computes for them. */
  function MergeIndexed(s: State, ours: Object, theirs: Object, opts: MergeOpts, ix: Index): (State, Result<Begun>) {
    var s1 := s.(odb := s.odb + IndexBlobs(ix));
    if ix.conflicts == map[] then
      Settled(s1, ours, theirs, ix, opts, false, [])
    else if opts.strategy == "ours" || opts.strategy == "theirs" then
      Settled(s1, ours, theirs, TakeSide(ix, opts.strategy == "ours"), opts, true, SortedKeys(ix.conflicts.Keys))
    else if opts.strategy == "detect" then
      (s1, Ok(Done(MergeResult(false, false, true, None, Conflicts(ix), []))))
    else
      (s1, Ok(AwaitAnswers(Pending(ours, theirs, ix, opts.noCommit, opts.info))))
  }

  function FastForward(s: State, theirs: Object): State
    requires HeadRef(s).Some? && theirs.Commit?
  {
    s.(work := Flatten(theirs.tree), refs := s.refs[HeadRef(s).value.name := Direct(theirs)])
  }

  /** A merge up to the point where it is done or needs its resolver. `merged` is the index
      libgit2 computes for the two commits, if it can. */
  function BeginMerge(s: State, rev: Rev, opts: MergeOpts, merged: Option<Index>): (State, Result<Begun>) {
    if !OptsOk(opts) then (s, Err("GIT-MERGE-OPTION-ERROR"))
    else match RevParse(s, rev)
      case None => (s, Err("GIT-MERGE-ERROR"))
      case Some(theirs) =>
        match HeadId(s)
        case None => (s, Err("GIT-MERGE-ERROR"))
        case Some(ours) =>
          if !theirs.Commit? || !ours.Commit? then (s, Err("GIT-MERGE-ERROR"))
          else if IsAncestor(theirs, ours) then
            (s, Ok(Done(MergeResult(true, false, false, None, [], []))))
          else if IsAncestor(ours, theirs) then
            (FastForward(s, theirs), Ok(Done(MergeResult(false, true, false, Some(theirs), [], []))))
          else if merged.None? then (s, Err("GIT-MERGE-ERROR"))
          else MergeIndexed(s, ours, theirs, opts, merged.value)
  }

  /** Committing what the resolver settled, if it settled everything. */
  function Conclude(s: State, p: Pending, ix: Index, result: MergeResult): (State, Result<MergeResult>) {
    if result.conflictList == [] && !p.noCommit then
      var (s', r) := CreateMergeCommit(s, p.ours, p.theirs, ix, p.info);
      match r
      case Err(e) => (s', Err(e))
      case Ok(c) => (s', Ok(result.(commitId := Some(c))))
    else (s, Ok(result))
  }

  /** The store, the index and the result once the answers are applied. */
  function Applied(s: State, p: Pending, answers: seq<Answer>): (State, Index, MergeResult)
    requires |answers| == |p.index.conflicts|
  {
    var cs := Conflicts(p.index);
    var res, open := Resolutions(cs, answers), Unresolved(cs, answers);
    (s.(odb := s.odb + res.Values), ApplyAnswers(p.index, res),
        MergeResult(false, false, true, None, open, SortedKeys(res.Keys)))
  }

  /** The rest of a merge once the resolver has answered, on whatever state it finds then. */
  function FinishMerge(s: State, p: Pending, answers: seq<Answer>): (State, Result<MergeResult>)
    requires |answers| == |p.index.conflicts|
  {
    var (s1, ix, result) := Applied(s, p, answers);
    Conclude(s1, p, ix, result)
  }

  /** A whole merge call, with what the repository is when the resolver returns. Fewer answers
      than conflicts mean that the resolver failed or the merge was cancelled meanwhile. */
  datatype MergeCall = MergeCall(rev: Rev, opts: MergeOpts, merged: Option<Index>, meanwhile: State,
      answers: seq<Answer>)

  function Merge(s: State, c: MergeCall): (State, Result<MergeResult>) {
    var (s1, begun) := BeginMerge(s, c.rev, c.opts, c.merged);
    AfterBegin(s1, begun, c)
  }

  function AfterBegin(s1: State, begun: Result<Begun>, c: MergeCall): (State, Result<MergeResult>) {
    match begun
    case Err(e) => (s1, Err(e))
    case Ok(Done(result)) => (s1, Ok(result))
    case Ok(AwaitAnswers(p)) => Resume(p, c.meanwhile, c.answers)
  }

  function Resume(p: Pending, meanwhile: State, answers: seq<Answer>): (State, Result<MergeResult>) {
    if |answers| != |p.index.conflicts| then (meanwhile, Err("resolver")) else FinishMerge(meanwhile, p, answers)
  }

  /** While the lock is released, only what the operations of others keep is known. */
  ghost predicate MergeCallOk(s: State, c: MergeCall) {
    && (c.merged.Some? ==> ValidIndex(c.merged.value))
    && var (s1, r) := BeginMerge(s, c.rev, c.opts, c.merged);
       r.Ok? && r.value.AwaitAnswers? ==> Lasts(s1, c.meanwhile)
  }

  // ---- Pulling ----

  /** The remote's name, what fetching from it comes to, what others have made of the repository
      when the branch is looked at and when the merge starts, and that merge. */
  datatype Remote = Remote(name: string, fetched: State, fetchOk: bool, looked: State, merging: State, merge: MergeCall)

  function TrackingRef(s: State, remote: string, branch: string): string {
    var name := "refs/remotes/" + (if remote == "" then "origin" else remote) + "/" + branch;
    if name in s.refs then name else "FETCH_HEAD"
  }

  predicate OnNamedBranch(s: State) {
    CurrentBranch(s).Some? && CurrentBranch(s).value != ""
  }

  /** A fetch, and a merge of what it brought for the current branch. The lock is released
      between the two and before the branch is looked at. */
  function Pull(s: State, e: Remote): (State, Result<MergeResult>) {
    if !e.fetchOk then (e.fetched, Err("GIT-FETCH-ERROR"))
    else if !OnNamedBranch(e.looked) then (e.looked, Err("GIT-PULL-ERROR"))
    else Merge(e.merging, e.merge)
  }

  ghost predicate RemoteOk(s: State, e: Remote) {
    && Fetches(s, e.fetched) && Lasts(e.fetched, e.looked) && Lasts(e.looked, e.merging)
    && (e.fetchOk && OnNamedBranch(e.looked) ==>
          && e.merge.rev == Rev(TrackingRef(e.looked, e.name, CurrentBranch(e.looked).value), None, None)
          && MergeCallOk(e.merging, e.merge))
  }

  // ---- What every operation keeps ----

  /** Each branch is still there and its tip is a descendant of what it was. */
  ghost predicate TipsAdvance(s: State, s': State) {
    forall n <- s.refs | IsBranchRef(n) ::
      && n in s'.refs && s.refs[n].Direct? && s'.refs[n].Direct?
      && IsAncestor(s.refs[n].id, s'.refs[n].id)
  }

  ghost predicate Keeps(s: State, s': State) {
    Valid(s') && TipsAdvance(s, s') && s.odb <= s'.odb && s'.onDisk == s.onDisk
  }

  /** What holds over any operations of others, which may also delete branches: the state stays
      valid, objects stay, and HEAD, once born, stays born. */
  ghost predicate Lasts(s: State, s': State) {
    Valid(s') && s.odb <= s'.odb && s'.onDisk == s.onDisk && (HeadId(s).Some? ==> HeadId(s').Some?)
  }

  /** Adding closed objects and a commit reachable from the moved reference. */
  lemma AddObjects(s: State, more: set<Object>)
    requires Valid(s) && Closed(s.odb + more)
    ensures Valid(s.(odb := s.odb + more))
  {
    assert s.odb <= s.odb + more;
  }

  lemma AddBlobs(s: State, more: set<Object>)
    requires Valid(s) && forall o <- more :: o.Blob?
    ensures Valid(s.(odb := s.odb + more)) && Keeps(s, s.(odb := s.odb + more))
  {
    assert s.odb <= s.odb + more;
  }

  lemma MoveRef(s: State, name: string, c: Object)
    requires Valid(s) && c.Commit? && c in s.odb
    requires IsBranchRef(name) || name == HEAD
    requires name in s.refs && s.refs[name].Direct? ==> IsAncestor(s.refs[name].id, c)
    ensures Keeps(s, s.(refs := s.refs[name := Direct(c)]))
  {
  }

  lemma NewCommitClosed(odb: set<Object>, c: Object)
    requires Closed(odb) && c.Commit? && c.tree in odb && WfTree(c.tree)
    requires forall p <- c.parents :: p in odb && p.Commit?
    ensures Closed(odb + {c})
  {
  }

  lemma AddsCommit(s: State, c: Object)
    requires Valid(s) && c.Commit? && WfTree(c.tree) && forall p <- c.parents :: p.Commit?
    ensures Keeps(s, s)
    ensures c.tree in s.odb && (forall p <- c.parents :: p in s.odb) ==> Keeps(s, s.(odb := s.odb + {c}))
  {
    forall n <- s.refs | IsBranchRef(n) ensures IsAncestor(s.refs[n].id, s.refs[n].id) {}
    if c.tree in s.odb && forall p <- c.parents :: p in s.odb {
      NewCommitClosed(s.odb, c);
      AddObjects(s, {c});
    }
  }

  /** A reference can move to a commit with these parents: its tip is the first of them, or it can
      be made. */
  predicate MayMove(s: State, n: string, parents: seq<Object>) {
    if n in s.refs then parents != [] && s.refs[n] == Direct(parents[0]) else RefFree(s, n)
  }

  /** A created commit extends the tip it replaces, or nothing moves. */
  lemma CommitCreateKeeps(s: State, updateRef: string, tree: Object, parents: seq<Object>, info: string)
    requires Valid(s) && WfTree(tree) && forall p <- parents :: p.Commit?
    requires updateRef == HeadTarget(s) || updateRef == MAIN
    ensures var (s', r) := CommitCreate(s, updateRef, tree, parents, info);
            && Keeps(s, s') && s'.work == s.work
            && (r.Err? ==> s'.refs == s.refs)
            && (r.Ok? ==> && r.value == Object.Commit(tree, parents, info) && r.value in s'.odb
                          && s'.refs == s.refs[updateRef := Direct(r.value)])
    ensures tree in s.odb && (forall p <- parents :: p in s.odb) ==>
              (CommitCreate(s, updateRef, tree, parents, info).1.Ok? <==> MayMove(s, updateRef, parents))
  {
    var (s', r) := CommitCreate(s, updateRef, tree, parents, info);
    HeadIsCommit(s);
    assert updateRef in s.refs ==>
             && s.refs[updateRef].Direct?
             && Resolve(s.refs, updateRef, 10) == Some(ResolvedRef(updateRef, s.refs[updateRef].id));
    assert updateRef !in s.refs ==> Terminal(s.refs, updateRef, 10) == updateRef;
    AddsCommit(s, Object.Commit(tree, parents, info));
    if r.Ok? {
      var c := r.value;
      if updateRef in s.refs {
        assert IsAncestor(c.parents[0], c) by { ParentIsOlder(c, 0); }
      }
      MoveRef(s.(odb := s.odb + {c}), updateRef, c);
    }
  }
}
