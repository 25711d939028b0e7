/** What the operations keep and promise: the state stays valid, branch tips only advance,
    and HEAD and the working map stay in step. */
module OperationLaws {
  import opened Text
  import opened Paths
  import opened Objects
  import opened TreeBuilding
  import opened MergeResolution
  import opened RepositoryState
  import opened TreeStoring
  import opened Operations

  // ---- Each operation keeps the state valid and only advances tips ----

  lemma WriteFileKeeps(s: State, path: string, data: Bytes)
    requires Valid(s)
    ensures Keeps(s, WriteFile(s, path, data).0)
  {
    AddObjects(s, {Blob(data)});
  }

  lemma DeleteFileKeeps(s: State, path: string)
    requires Valid(s)
    ensures Keeps(s, s) && Keeps(s, DeleteFile(s, path).0)
  {
    forall n <- s.refs | IsBranchRef(n) ensures IsAncestor(s.refs[n].id, s.refs[n].id) {}
  }

  /** The first commit can make the main branch. */
  predicate CanStartMain(s: State) {
    MAIN !in s.refs && RefFree(s, MAIN)
  }

  /** The commit of this tree, when it stays in the store without its branch. */
  function Refused(s: State, tree: Object, info: string): set<Object> {
    if HeadId(s).None? && MAIN !in s.refs && !RefFree(s, MAIN) then {Object.Commit(tree, [], info)} else {}
  }

  /** What committing a stored tree promises. */
  ghost predicate CommitTreeLaw(s: State, tree: Object, info: string, s': State, r: Result<Object>) {
    && Keeps(s, s') && s'.work == s.work
    && (r.Err? ==> s'.refs == s.refs)
    && (r.Ok? <==> HeadId(s).Some? || CanStartMain(s))
    && (r.Ok? ==>
          var c := r.value;
          && HeadId(s') == Some(c) && c.Commit? && c.tree == tree && c.info == info
          && c.parents == (if HeadId(s).Some? then [HeadId(s).value] else [])
          && s'.refs == (if HeadId(s).Some? then s.refs[HeadTarget(s) := Direct(c)]
                         else s.refs[MAIN := Direct(c)][HEAD := Symbolic(MAIN)]))
  }

  lemma CommitOnHead(s: State, tree: Object, info: string)
    requires Valid(s) && WfTree(tree) && tree in s.odb && HeadId(s).Some?
    ensures CommitTreeLaw(s, tree, info, CommitTree(s, tree, info).0, CommitTree(s, tree, info).1)
  {
    HeadIsCommit(s);
    CommitCreateKeeps(s, HeadTarget(s), tree, [HeadId(s).value], info);
    var (s', r) := CommitTree(s, tree, info);
    HeadMoved(s, s', r.value);
  }

  lemma FirstCommit(s: State, tree: Object, info: string)
    requires Valid(s) && WfTree(tree) && tree in s.odb && HeadId(s).None?
    ensures CommitTreeLaw(s, tree, info, CommitTree(s, tree, info).0, CommitTree(s, tree, info).1)
  {
    CommitCreateKeeps(s, MAIN, tree, [], info);
    var (s', r) := CommitTree(s, tree, info);
    if r.Ok? {
      assert !IsBranchRef(HEAD) by { assert HEAD[0] != "refs/heads/"[0]; }
      assert s'.refs[MAIN] == Direct(r.value);
      HeadIsCommit(s');
    }
  }

  /** Writing the tree of a map only adds to the store. */
  lemma StoreTreeOf(s: State, m: map<string, Object>)
    requires Valid(s) && ValidWork(s.odb, m) && AllStorable(m)
    ensures var tree, s1 := TreeOf(m), s.(odb := s.odb + Subtrees(TreeOf(m)));
            && Valid(s1) && Keeps(s, s1) && WfTree(tree) && tree in s1.odb
            && HeadId(s1) == HeadId(s) && HeadTarget(s1) == HeadTarget(s)
  {
    var tree := TreeOf(m);
    TreeOfClosed(s.odb, m);
    AddObjects(s, Subtrees(tree));
    assert tree in Subtrees(tree);
    forall n <- s.refs | IsBranchRef(n) ensures IsAncestor(s.refs[n].id, s.refs[n].id) {}
  }

  /** Writing a directory whose blobs are stored only adds trees to the store. */
  lemma StoreDir(s: State, d: Dir)
    requires Valid(s) && Populated(d) && BlobsStored(d, s.odb)
    ensures var s1 := s.(odb := s.odb + Stored(d));
            && Keeps(s, s1) && HeadId(s1) == HeadId(s) && HeadTarget(s1) == HeadTarget(s)
            && (NamesOk(d) ==> WfTree(Build(d)) && Build(d) in s1.odb)
  {
    StoredClosed(d, s.odb);
    AddObjects(s, Stored(d));
    if NamesOk(d) { BuildWf(d); }
    forall n <- s.refs | IsBranchRef(n) ensures IsAncestor(s.refs[n].id, s.refs[n].id) {}
  }

  lemma WorkDirsShape(s: State, d: Dir)
    requires Valid(s) && d == WorkDirs(s)
    ensures Populated(d) && BlobsStored(d, s.odb) && (NamesOk(d) <==> AllStorable(s.work)) && Build(d) == TreeOf(s.work)
  {
    FillShape(SortedKeys(s.work.Keys), s.work);
    FillStored(SortedKeys(s.work.Keys), s.work, s.odb);
  }

  /** A commit puts the pruned working map under HEAD, on top of the old HEAD; the two are in
      step just when no file of the working map is also a directory of it. A failure adds at
      most trees to the store, and the first commit when its branch is refused. */
  lemma CommitLaw(s: State, info: string)
    requires Valid(s)
    ensures var (s', r) := CommitAll(s, info);
            && Keeps(s, s') && s'.work == s.work
            && (r.Err? ==> s'.refs == s.refs && OnlyTrees(s'.odb - s.odb - Refused(s, TreeOf(s.work), info)))
            && (r.Ok? <==> s.work != map[] && AllStorable(s.work) && (HeadId(s).Some? || CanStartMain(s)))
            && (r.Ok? ==>
                  && CommitTreeLaw(s, TreeOf(s.work), info, s', r)
                  && Flatten(r.value.tree) == Prune(s.work) && (InSync(s') <==> PrefixFree(s.work)))
  {
    if s.work == map[] {
      DeleteFileKeeps(s, "");
    } else {
      var d := WorkDirs(s);
      WorkDirsShape(s, d);
      StoreDir(s, d);
      StoredClosed(d, s.odb);
      MainIsBranch();
      CommitFailure(s, d, info);
      if NamesOk(d) {
        StoredCommitLaw(s, s.(odb := s.odb + Stored(d)), info);
      }
    }
  }

  lemma MainIsBranch()
    ensures IsBranchRef(MAIN)
  {
  }

  lemma CommitFailure(s: State, d: Dir, info: string)
    requires d == WorkDirs(s) && OnlyTrees(Stored(d)) && (MAIN in s.refs ==> s.refs[MAIN].Direct?)
    requires NamesOk(d) ==> Build(d) == TreeOf(s.work) && Build(d) in s.odb + Stored(d)
    ensures var (s', r) := CommitAll(s, info);
            r.Err? ==> OnlyTrees(s'.odb - s.odb - Refused(s, TreeOf(s.work), info))
  {
    if NamesOk(d) {
      var s1 := s.(odb := s.odb + Stored(d));
      FailedCommit(s1, TreeOf(s.work), info);
      assert HeadId(s1) == HeadId(s);
    }
  }

  lemma StoredCommitLaw(s: State, s1: State, info: string)
    requires Valid(s) && Keeps(s, s1) && s1.refs == s.refs && s1.work == s.work && AllStorable(s.work)
    requires WfTree(TreeOf(s.work)) && TreeOf(s.work) in s1.odb
    ensures var (s', r) := CommitTree(s1, TreeOf(s.work), info);
            && CommitTreeLaw(s, TreeOf(s.work), info, s', r)
            && (r.Ok? ==> Flatten(r.value.tree) == Prune(s.work) && (InSync(s') <==> PrefixFree(s.work)))
  {
    var tree := TreeOf(s.work);
    FlattenTreeOf(s.work);
    RoundTripIffPrefixFree(s.work);
    if HeadId(s1).Some? {
      CommitOnHead(s1, tree, info);
    } else {
      FirstCommit(s1, tree, info);
    }
    var (s', r) := CommitTree(s1, tree, info);
    CommitTreeAfter(s, s1, tree, info, s', r);
  }

  lemma FailedCommit(s: State, tree: Object, info: string)
    requires tree in s.odb && (MAIN in s.refs ==> s.refs[MAIN].Direct?)
    ensures var (s', r) := CommitTree(s, tree, info); r.Err? ==> s'.odb == s.odb + Refused(s, tree, info)
  {
  }

  lemma CommitTreeAfter(s: State, s1: State, tree: Object, info: string, s': State, r: Result<Object>)
    requires Valid(s) && Keeps(s, s1) && s1.refs == s.refs && s1.work == s.work && CommitTreeLaw(s1, tree, info, s', r)
    ensures CommitTreeLaw(s, tree, info, s', r)
  {
    assert HeadId(s1) == HeadId(s) && HeadTarget(s1) == HeadTarget(s);
  }

  /** HEAD is on a branch that does not exist yet. */
  predicate UnbornOn(s: State, name: string) {
    OnBranch(s, name) && Branch(name) !in s.refs
  }

  /** Creating a branch moves HEAD only by giving birth to it: when HEAD was waiting for a
      branch of this name. */
  lemma CreateBranchKeeps(s: State, name: string, nameOk: bool, from: Option<Rev>)
    requires Valid(s)
    ensures var (s', r) := CreateBranch(s, name, nameOk, from);
            && Keeps(s, s')
            && (HeadId(s') == HeadId(s) <==> !(r.Ok? && UnbornOn(s, name)))
  {
    HeadIsCommit(s);
    if from.Some? { RevParseInStore(s, from.value); }
    var (s', r) := CreateBranch(s, name, nameOk, from);
    assert Branch(name) != HEAD by { assert Branch(name)[0] != HEAD[0]; }
    if r.Ok? {
      MoveRef(s, Branch(name), s'.refs[Branch(name)].id);
    }
    HeadIsCommit(s');
    BranchInjective(s, name);
  }

  lemma BranchInjective(s: State, name: string)
    ensures OnBranch(s, name) <==> HEAD in s.refs && s.refs[HEAD] == Symbolic(Branch(name))
    ensures forall m :: Branch(m) == Branch(name) ==> m == name
  {
    forall m | Branch(m) == Branch(name) ensures m == name {
      assert m == Branch(m)[|"refs/heads/"|..] && name == Branch(name)[|"refs/heads/"|..];
    }
  }

  /** Deleting a branch takes only that branch; HEAD stays where it is. */
  lemma DeleteBranchLaw(s: State, name: string)
    requires Valid(s)
    ensures var (s', r) := DeleteBranch(s, name);
            && Lasts(s, s') && HeadRef(s') == HeadRef(s) && s'.odb == s.odb && s'.work == s.work
            && (r.Ok? <==> Branch(name) in s.refs && HeadTarget(s) != Branch(name))
            && s'.refs == (if r.Ok? then s.refs - {Branch(name)} else s.refs)
  {
    HeadIsCommit(s);
    var s' := DeleteBranch(s, name).0;
    assert HEAD != Branch(name) by { assert HEAD[0] != Branch(name)[0]; }
    assert Valid(s');
    HeadIsCommit(s');
  }

  lemma CreateTagKeeps(s: State, name: string, nameOk: bool, note: Option<string>, from: Option<Rev>)
    requires Valid(s)
    ensures Keeps(s, CreateTag(s, name, nameOk, note, from).0)
    ensures HeadRef(CreateTag(s, name, nameOk, note, from).0) == HeadRef(s)
  {
    HeadIsCommit(s);
    DeleteFileKeeps(s, "");
    if from.Some? { RevParseInStore(s, from.value); }
    var target := if from.Some? && from.value.text != "" then RevParse(s, from.value) else HeadId(s);
    if target.Some? {
      var o := if note.Some? && note.value != "" then Object.Tag(target.value, note.value) else target.value;
      TagStored(s, TagRef(name), o);
    }
  }

  lemma TagStored(s: State, n: string, o: Object)
    requires Valid(s) && TagRef("") <= n && (o in s.odb || (o.Tag? && o.target in s.odb))
    ensures Keeps(s, s.(odb := s.odb + {o}))
    ensures var s' := s.(odb := s.odb + {o}, refs := s.refs[n := Direct(o)]); Keeps(s, s') && HeadRef(s') == HeadRef(s)
  {
    var s' := s.(odb := s.odb + {o}, refs := s.refs[n := Direct(o)]);
    AddObjects(s, {o});
    DeleteFileKeeps(s, "");
    assert !IsBranchRef(n) && n != HEAD by { assert n[5] == 't' && Branch("")[5] == 'h' && |n| > 4; }
    HeadIsCommit(s);
    HeadIsCommit(s');
  }

  lemma CheckoutKeeps(s: State, rev: Rev)
    requires Valid(s)
    ensures Keeps(s, Checkout(s, rev).0)
    ensures Checkout(s, rev).1.Err? ==> Checkout(s, rev).0 == s
  {
    DeleteFileKeeps(s, "");
    RevParseInStore(s, rev);
    var r := RevParse(s, rev);
    if r.Some? {
      PeelInStore(s, r.value);
      var c := Peel(r.value);
      if c.Some? {
        FlattenIsValidWork(s.odb, c.value.tree);
        NewHeadKeeps(s, Flatten(c.value.tree),
                     if Branch(rev.text) in s.refs then Symbolic(Branch(rev.text)) else Direct(c.value));
      }
    }
  }

  lemma NewHeadKeeps(s: State, work: map<string, Object>, head: Ref)
    requires Valid(s) && ValidWork(s.odb, work)
    requires if head.Direct? then head.id.Commit? && head.id in s.odb else IsBranchRef(head.target)
    ensures Keeps(s, s.(work := work, refs := s.refs[HEAD := head]))
  {
  }

  lemma FetchesKeeps(s: State, s': State)
    requires Valid(s) && Fetches(s, s')
    ensures Keeps(s, s') && HeadRef(s') == HeadRef(s)
  {
    HeadIsCommit(s);
    forall n <- s'.refs | IsBranchRef(n) ensures s'.refs[n].Direct? && s'.refs[n].id.Commit? && n in s.refs {}
    HeadIsCommit(s');
  }

  /** HEAD is at the commit a merge started from or, unborn, can be born. */
  predicate CanConclude(s: State, ours: Object) {
    if HeadId(s).Some? then HeadId(s) == Some(ours) else RefFree(s, HeadTarget(s))
  }

  /** A merge commit extends the tip it replaces, or nothing but the store changes. */
  lemma CreateMergeCommitKeeps(s: State, ours: Object, theirs: Object, ix: Index, info: string)
    requires Valid(s) && ValidIndex(ix) && ix.entries.Values <= s.odb
    requires ours.Commit? && ours in s.odb && theirs.Commit? && theirs in s.odb
    ensures var (s', r) := CreateMergeCommit(s, ours, theirs, ix, info);
            && Keeps(s, s')
            && (r.Err? ==> s'.refs == s.refs && s'.work == s.work)
            && (r.Ok? ==> s'.work == ix.entries && s'.refs == s.refs[HeadTarget(s) := Direct(r.value)]
                          && r.value == Object.Commit(TreeOf(ix.entries), [ours, theirs], info))
            && (r.Ok? <==> ix.conflicts == map[] && CanConclude(s, ours))
  {
    if ix.conflicts == map[] {
      var tree := TreeOf(ix.entries);
      var s1 := s.(odb := s.odb + Subtrees(tree));
      IndexIsWork(s, ix);
      StoreTreeOf(s, ix.entries);
      CommitCreateKeeps(s1, HeadTarget(s), tree, [ours, theirs], info);
      MayConclude(s, s1, ours, theirs);
      MergeCommitIs(s, ours, theirs, ix, info);
      TakesIndex(s, s1, CommitCreate(s1, HeadTarget(s), tree, [ours, theirs], info).0, ix.entries);
    }
  }

  lemma MayConclude(s: State, s1: State, ours: Object, theirs: Object)
    requires Valid(s) && s1.refs == s.refs && s1.onDisk == s.onDisk
    ensures MayMove(s1, HeadTarget(s), [ours, theirs]) <==> CanConclude(s, ours)
  {
    HeadIsCommit(s);
  }

  lemma TakesIndex(s: State, s1: State, s2: State, work: map<string, Object>)
    requires Keeps(s, s1) && s1.refs == s.refs && Keeps(s1, s2) && ValidWork(s.odb, work)
    ensures Keeps(s, s2) && Keeps(s, s2.(work := work))
  {
    assert ValidWork(s2.odb, work);
  }

  /** What a merge without conflicts makes of the commit it creates. */
  lemma MergeCommitIs(s: State, ours: Object, theirs: Object, ix: Index, info: string)
    requires ix.conflicts == map[]
    ensures var tree := TreeOf(ix.entries);
            var (s2, c) := CommitCreate(s.(odb := s.odb + Subtrees(tree)), HeadTarget(s), tree, [ours, theirs], info);
            && s2.work == s.work && s2.onDisk == s.onDisk
            && CreateMergeCommit(s, ours, theirs, ix, info) ==
               if c.Err? then (s2, Err("GIT-MERGE-ERROR")) else (s2.(work := ix.entries), c)
  {
  }

  lemma IndexIsWork(s: State, ix: Index)
    requires ValidIndex(ix) && ix.entries.Values <= s.odb
    ensures ValidWork(s.odb, ix.entries) && AllStorable(ix.entries)
  {
    forall p <- ix.entries ensures ix.entries[p] in s.odb && ValidRepoPath(p) {
      assert ix.entries[p] in ix.entries.Values;
      StorableIsValid(p);
    }
  }

  lemma StorableIsValid(p: string)
    requires StorablePath(p)
    ensures ValidRepoPath(p)
  {
    var a, r := SplitCases(p);
    assert Split(p)[0] == a && EntryNameOk(a);
    assert ".." in Split(p) ==> EntryNameOk("..");
  }

  lemma IndexBlobsClosed(s: State, ix: Index)
    requires Valid(s) && ValidIndex(ix)
    ensures Valid(s.(odb := s.odb + IndexBlobs(ix))) && Keeps(s, s.(odb := s.odb + IndexBlobs(ix)))
  {
    forall o <- IndexBlobs(ix) ensures o.Blob? {}
    AddBlobs(s, IndexBlobs(ix));
  }

  ghost predicate ValidPending(s: State, p: Pending) {
    && p.ours.Commit? && p.ours in s.odb && p.theirs.Commit? && p.theirs in s.odb
    && ValidIndex(p.index) && IndexBlobs(p.index) <= s.odb
  }

  lemma TakeSideBlobs(ix: Index, useOurs: bool)
    requires ValidIndex(ix)
    ensures ValidIndex(TakeSide(ix, useOurs)) && TakeSide(ix, useOurs).conflicts == map[]
    ensures TakeSide(ix, useOurs).entries.Values <= IndexBlobs(ix)
    ensures TakeSide(ix, useOurs).entries == Overlay(ix.entries, SideBlobs(ix, useOurs))
  {
    TakeSideMeaning(ix, useOurs);
    var out, added := TakeSide(ix, useOurs), SideBlobs(ix, useOurs);
    forall p <- out.entries ensures out.entries[p] in IndexBlobs(ix) {
      if p in added {
        assert out.entries[p] == added[p];
      } else {
        assert out.entries[p] == ix.entries[p];
        assert ix.entries[p] in ix.entries.Values;
      }
    }
  }

  lemma AppliedBlobs(ix: Index, res: map<string, Object>, out: Index)
    requires out.entries == Overlay(ix.entries, res)
    ensures out.entries.Values <= ix.entries.Values + res.Values
  {
    forall p <- out.entries ensures out.entries[p] in ix.entries.Values + res.Values {
      if p in res { assert res[p] in res.Values; } else { assert ix.entries[p] in ix.entries.Values; }
    }
  }

  /** Moving the reference a commit on HEAD moves makes the commit HEAD. */
  lemma HeadMoved(s: State, s': State, c: Object)
    requires Valid(s) && Valid(s') && s'.refs == s.refs[HeadTarget(s) := Direct(c)]
    ensures HeadId(s') == Some(c)
  {
    HeadIsCommit(s);
    HeadIsCommit(s');
  }

  // ---- HEAD and the working map ----

  lemma MergedInSync(s: State, ix: Index, c: Object)
    requires ValidIndex(ix) && HeadId(s) == Some(c) && s.work == ix.entries
    requires c.Commit? && c.tree == TreeOf(ix.entries)
    ensures InSync(s) && Flatten(c.tree) == ix.entries
  {
    RoundTripIffPrefixFree(ix.entries);
  }

  /** The commit a checkout resolves its text to. */
  function CheckedOut(s: State, rev: Rev): Option<Object> {
    match RevParse(s, rev) case None => None case Some(o) => Peel(o)
  }

  /** HEAD on the branch of this name, or detached when there is none. */
  function HeadAt(s: State, name: string, c: Object): Ref {
    if Branch(name) in s.refs then Symbolic(Branch(name)) else Direct(c)
  }

  /** Checkout succeeds just when the text resolves to a commit. HEAD and the working map are
      then in step just when the branch of that name, if there is one, has that commit's
      tree at its tip: only something else of the same name can put them out of step. */
  lemma CheckoutLaw(s: State, rev: Rev)
    requires Valid(s)
    ensures var (s', r) := Checkout(s, rev);
            var c := CheckedOut(s, rev);
            && (r.Ok? <==> c.Some?)
            && (r.Ok? ==>
                  && c.value.Commit? && s'.work == Flatten(c.value.tree)
                  && s'.refs == s.refs[HEAD := HeadAt(s, rev.text, c.value)]
                  && HeadId(s') == (if Branch(rev.text) in s.refs then Some(s.refs[Branch(rev.text)].id) else c)
                  && (InSync(s') <==> Branch(rev.text) in s.refs ==> s.refs[Branch(rev.text)].id.tree == c.value.tree))
  {
    CheckoutKeeps(s, rev);
    RevParseInStore(s, rev);
    var (s', r) := Checkout(s, rev);
    if r.Ok? {
      PeelInStore(s, RevParse(s, rev).value);
      var c := CheckedOut(s, rev).value;
      HeadIsCommit(s');
      assert IsBranchRef(Branch(rev.text));
      if Branch(rev.text) in s.refs {
        var tip := s.refs[Branch(rev.text)].id;
        assert HeadId(s') == Some(tip);
        assert tip.tree in Children(tip);
        if Flatten(tip.tree) == Flatten(c.tree) { FlattenInjective(tip.tree, c.tree); }
      }
    }
  }

  /** Nothing else of this name is looked up before the branch. */
  predicate BranchNameOnly(s: State, rev: Rev) {
    && rev.text != "" && (rev.full.Some? ==> rev.full.value !in s.odb)
    && rev.text !in s.refs && "refs/" + rev.text !in s.refs && TagRef(rev.text) !in s.refs
  }

  lemma BranchNameResolves(s: State, rev: Rev)
    requires Valid(s) && BranchNameOnly(s, rev) && Branch(rev.text) in s.refs
    ensures RevParse(s, rev) == Some(s.refs[Branch(rev.text)].id)
  {
    var t := rev.text;
    var names := DwimNames(t);
    assert IsBranchRef(Branch(t));
    assert FirstResolved(s.refs, names[3..]) == Some(s.refs[Branch(t)].id);
    assert names[2..][1..] == names[3..] && names[1..][1..] == names[2..];
    assert FirstResolved(s.refs, names[2..]) == FirstResolved(s.refs, names[3..]);
    assert FirstResolved(s.refs, names[1..]) == FirstResolved(s.refs, names[2..]);
  }

  /** With no tag or other reference shadowing the branch, checkout leaves HEAD on it, in step. */
  lemma CheckoutBranch(s: State, rev: Rev)
    requires Valid(s) && BranchNameOnly(s, rev) && Branch(rev.text) in s.refs
    ensures var (s', r) := Checkout(s, rev);
            && r.Ok? && InSync(s') && OnBranch(s', rev.text)
            && HeadId(s') == Some(s.refs[Branch(rev.text)].id)
            && s'.refs == s.refs[HEAD := Symbolic(Branch(rev.text))] && s'.odb == s.odb
  {
    BranchNameResolves(s, rev);
    CheckoutLaw(s, rev);
    CheckoutKeeps(s, rev);
    HeadIsCommit(Checkout(s, rev).0);
    assert IsBranchRef(Branch(rev.text));
  }

  /** A tag is looked up before the branch of its name. */
  lemma TagResolves(s: State, rev: Rev, o: Object)
    requires rev.text != "" && rev.full.None? && rev.text !in s.refs && "refs/" + rev.text !in s.refs
    requires TagRef(rev.text) in s.refs && s.refs[TagRef(rev.text)] == Direct(o)
    ensures RevParse(s, rev) == Some(o)
  {
    var names := DwimNames(rev.text);
    assert names[1..][1..] == names[2..];
    assert FirstResolved(s.refs, names[2..]) == Some(o);
    assert FirstResolved(s.refs, names[1..]) == FirstResolved(s.refs, names[2..]);
  }

  predicate Committed(r: Result<Begun>) { r.Ok? && r.value.Done? && r.value.result.commitId.Some? }

  /** A first phase that commits leaves HEAD at the new commit, in step; one that does not
      leaves references and working map alone; one that waits for its resolver has
      everything it needs in the store. */
  ghost predicate Phase1Law(s: State, s': State, r: Result<Begun>) {
    && Keeps(s, s')
    && (Committed(r) ==> InSync(s') && HeadId(s') == r.value.result.commitId)
    && (!Committed(r) ==> s'.refs == s.refs && s'.work == s.work)
    && (r.Ok? && r.value.AwaitAnswers? ==> ValidPending(s', r.value.pending))
  }

  lemma NothingBegun(s: State, r: Result<Begun>)
    requires Valid(s)
    ensures !Committed(r) && (r.Ok? ==> r.value.Done?) ==> Phase1Law(s, s, r)
  {
    DeleteFileKeeps(s, "");
  }

  lemma SettledLaw(s: State, ours: Object, theirs: Object, ix: Index, opts: MergeOpts, conflicts: bool,
      paths: seq<string>)
    requires Valid(s) && ValidIndex(ix) && ix.entries.Values <= s.odb && HeadId(s) == Some(ours)
    requires ours.Commit? && ours in s.odb && theirs.Commit? && theirs in s.odb
    ensures var (s', r) := Settled(s, ours, theirs, ix, opts, conflicts, paths);
            && Phase1Law(s, s', r)
            && (r.Ok? ==> r.value.Done? && !r.value.result.upToDate && !r.value.result.fastForward)
            && (Committed(r) <==> ix.conflicts == map[] && !opts.noCommit)
            && (Committed(r) ==>
                  && r.value.result.commitId == Some(Object.Commit(TreeOf(ix.entries), [ours, theirs], opts.info))
                  && Flatten(r.value.result.commitId.value.tree) == ix.entries)
  {
    CreateMergeCommitKeeps(s, ours, theirs, ix, opts.info);
    var (s', r) := CreateMergeCommit(s, ours, theirs, ix, opts.info);
    if r.Ok? {
      HeadMoved(s, s', r.value);
      MergedInSync(s', ix, r.value);
    }
  }

  lemma FastForwardLaw(s: State, theirs: Object)
    requires Valid(s) && HeadRef(s).Some? && theirs.Commit? && theirs in s.odb
    requires IsAncestor(HeadRef(s).value.id, theirs)
    ensures var s' := FastForward(s, theirs);
            Keeps(s, s') && HeadId(s') == Some(theirs) && InSync(s')
  {
    HeadIsCommit(s);
    assert theirs.tree in Children(theirs);
    FlattenIsValidWork(s.odb, theirs.tree);
    MoveRef(s, HeadRef(s).value.name, theirs);
    HeadIsCommit(FastForward(s, theirs));
  }

  lemma MergeCleanLaw(s: State, ours: Object, theirs: Object, opts: MergeOpts, ix: Index)
    requires Valid(s) && ValidIndex(ix) && HeadId(s) == Some(ours)
    requires ours.Commit? && ours in s.odb && theirs.Commit? && theirs in s.odb
    requires ix.conflicts == map[]
    ensures MergeEndsLaw(s, ours, theirs, opts, MergedFiles(ix, opts), MergeIndexed(s, ours, theirs, opts, ix).0,
            MergeIndexed(s, ours, theirs, opts, ix).1)
  {
    IndexBlobsClosed(s, ix);
    var s1 := s.(odb := s.odb + IndexBlobs(ix));
    assert HeadId(s1) == HeadId(s);
    SettledLaw(s1, ours, theirs, ix, opts, false, []);
    Phase1After(s, s1, MergeIndexed(s, ours, theirs, opts, ix).0, MergeIndexed(s, ours, theirs, opts, ix).1);
  }

  lemma MergeSideLaw(s: State, ours: Object, theirs: Object, opts: MergeOpts, ix: Index)
    requires Valid(s) && ValidIndex(ix) && HeadId(s) == Some(ours)
    requires ours.Commit? && ours in s.odb && theirs.Commit? && theirs in s.odb
    requires ix.conflicts != map[] && (opts.strategy == "ours" || opts.strategy == "theirs")
    ensures MergeEndsLaw(s, ours, theirs, opts, MergedFiles(ix, opts), MergeIndexed(s, ours, theirs, opts, ix).0,
            MergeIndexed(s, ours, theirs, opts, ix).1)
  {
    IndexBlobsClosed(s, ix);
    var s1 := s.(odb := s.odb + IndexBlobs(ix));
    assert HeadId(s1) == HeadId(s);
    var useOurs := opts.strategy == "ours";
    TakeSideBlobs(ix, useOurs);
    SettledLaw(s1, ours, theirs, TakeSide(ix, useOurs), opts, true, SortedKeys(ix.conflicts.Keys));
    Phase1After(s, s1, MergeIndexed(s, ours, theirs, opts, ix).0, MergeIndexed(s, ours, theirs, opts, ix).1);
  }

  lemma Phase1After(s: State, s1: State, s': State, r: Result<Begun>)
    requires Valid(s) && Keeps(s, s1) && s1.refs == s.refs && s1.work == s.work && Phase1Law(s1, s', r)
    ensures Phase1Law(s, s', r)
  {
  }

  ghost predicate MergeEndsLaw(s: State, ours: Object, theirs: Object, opts: MergeOpts, files: map<string, Object>,
                               s': State, r: Result<Begun>) {
    && Phase1Law(s, s', r) && r.Ok? && r.value.Done? && IsMergeResult(r.value.result, ours, theirs, files)
    && (Committed(r) <==> !opts.noCommit)
  }

  /** Neither up to date nor a fast-forward; a commit, if any, has both heads as parents and
      exactly these files. */
  predicate IsMergeResult(result: MergeResult, ours: Object, theirs: Object, files: map<string, Object>) {
    && !result.upToDate && !result.fastForward
    && (result.commitId.Some? ==> IsMergeCommit(result.commitId.value, ours, theirs, files))
  }

  predicate IsMergeCommit(c: Object, ours: Object, theirs: Object, files: map<string, Object>) {
    c.Commit? && c.parents == [ours, theirs] && Flatten(c.tree) == files
  }

  /** What a first phase that commits a merge puts into the commit: the merged entries, with the
      chosen side's blobs over them where there were conflicts. */
  function MergedFiles(ix: Index, opts: MergeOpts): map<string, Object> {
    if ix.conflicts == map[] then ix.entries else Overlay(ix.entries, SideBlobs(ix, opts.strategy == "ours"))
  }

  lemma MergeIndexedLaw(s: State, ours: Object, theirs: Object, opts: MergeOpts, ix: Index)
    requires Valid(s) && ValidIndex(ix) && HeadId(s) == Some(ours) && OptsOk(opts)
    requires ours.Commit? && ours in s.odb && theirs.Commit? && theirs in s.odb
    ensures var (s', r) := MergeIndexed(s, ours, theirs, opts, ix);
            && Phase1Law(s, s', r) && r.Ok?
            && (r.value.Done? ==> IsMergeResult(r.value.result, ours, theirs, MergedFiles(ix, opts)))
            && (r.value.AwaitAnswers? <==> ix.conflicts != map[] && opts.strategy == "callback")
            && (r.value.AwaitAnswers? ==> r.value.pending == Pending(ours, theirs, ix, opts.noCommit, opts.info))
            && (Committed(r) <==> !opts.noCommit && (ix.conflicts == map[] || opts.strategy in {"ours", "theirs"}))
  {
    if ix.conflicts == map[] {
      MergeCleanLaw(s, ours, theirs, opts, ix);
    } else if opts.strategy in {"ours", "theirs"} {
      MergeSideLaw(s, ours, theirs, opts, ix);
    } else {
      MergeOpenLaw(s, ours, theirs, opts, ix);
    }
  }

  /** Conflicts that are only reported, or kept for the resolver. */
  lemma MergeOpenLaw(s: State, ours: Object, theirs: Object, opts: MergeOpts, ix: Index)
    requires Valid(s) && ValidIndex(ix) && OptsOk(opts)
    requires ours.Commit? && ours in s.odb && theirs.Commit? && theirs in s.odb
    requires ix.conflicts != map[] && opts.strategy !in {"ours", "theirs"}
    ensures var (s', r) := MergeIndexed(s, ours, theirs, opts, ix);
            && Phase1Law(s, s', r) && r.Ok? && !Committed(r)
            && (r.value.Done? ==> IsMergeResult(r.value.result, ours, theirs, MergedFiles(ix, opts)))
            && (r.value.AwaitAnswers? <==> opts.strategy == "callback")
            && (r.value.AwaitAnswers? ==> r.value.pending == Pending(ours, theirs, ix, opts.noCommit, opts.info))
  {
    IndexBlobsClosed(s, ix);
    var s1 := s.(odb := s.odb + IndexBlobs(ix));
    assert MergeIndexed(s, ours, theirs, opts, ix).0 == s1;
    assert ValidPending(s1, Pending(ours, theirs, ix, opts.noCommit, opts.info));
  }

  lemma AncestorsBothWays(a: Object, b: Object)
    ensures IsAncestor(a, b) && IsAncestor(b, a) <==> a == b
  {
    if IsAncestor(a, b) && IsAncestor(b, a) {
      AncestorSmaller(a, b);
      AncestorSmaller(b, a);
    }
  }

  /** A merge up to the point where it is done or needs its resolver. It is up to date when
      their commit is already below HEAD, and a fast-forward, whatever `noCommit` says, when
      HEAD is below their commit: then the reference HEAD stands for moves to it. */
  lemma BeginMergeLaw(s: State, rev: Rev, opts: MergeOpts, merged: Option<Index>)
    requires Valid(s) && (merged.Some? ==> ValidIndex(merged.value))
    ensures var (s', r) := BeginMerge(s, rev, opts, merged);
            && Phase1Law(s, s', r)
            && (r.Ok? ==> HeadId(s).Some? && RevParse(s, rev).Some?)
            && (r.Ok? && r.value.AwaitAnswers? ==>
                  && merged.Some?
                  && r.value.pending ==
                     Pending(HeadId(s).value, RevParse(s, rev).value, merged.value, opts.noCommit, opts.info))
            && (r.Ok? && r.value.Done? ==>
                  var ours, theirs, result := HeadId(s).value, RevParse(s, rev).value, r.value.result;
                  && (result.upToDate <==> IsAncestor(theirs, ours))
                  && (result.fastForward <==> IsAncestor(ours, theirs) && ours != theirs)
                  && (result.fastForward ==> result.commitId == Some(theirs))
                  && (result.upToDate ==> result.commitId == None)
                  && (!result.upToDate && !result.fastForward ==>
                        && merged.Some? && IsMergeResult(result, ours, theirs, MergedFiles(merged.value, opts))
                        && (opts.noCommit ==> result.commitId == None)))
  {
    RevParseInStore(s, rev);
    HeadIsCommit(s);
    NothingBegun(s, BeginMerge(s, rev, opts, merged).1);
    var theirs, head := RevParse(s, rev), HeadId(s);
    if OptsOk(opts) && theirs.Some? && theirs.value.Commit? && head.Some? {
      AncestorsBothWays(head.value, theirs.value);
      if IsAncestor(theirs.value, head.value) {
      } else if IsAncestor(head.value, theirs.value) {
        FastForwardLaw(s, theirs.value);
      } else if merged.Some? {
        MergeIndexedLaw(s, head.value, theirs.value, opts, merged.value);
      }
    }
  }

  /** Everything is in the store for concluding a merge. */
  ghost predicate Concludable(s: State, p: Pending, ix: Index) {
    Valid(s) && ValidPending(s, p) && ValidIndex(ix) && ix.entries.Values <= s.odb
  }

  /** The index and the store after the answers were applied. */
  lemma AnswersApplied(s: State, p: Pending, answers: seq<Answer>)
    requires Valid(s) && ValidPending(s, p) && |answers| == |p.index.conflicts|
    ensures |Conflicts(p.index)| == |answers| && AllBlobs(Resolutions(Conflicts(p.index), answers))
    ensures var (s1, ix, result) := Applied(s, p, answers);
            && Keeps(s, s1) && Concludable(s1, p, ix) && s1.refs == s.refs && s1.work == s.work
            && (ix.conflicts == map[] <==> result.conflictList == []) && ix.entries == AnsweredFiles(p.index, answers)
            && result.conflictList == Unresolved(Conflicts(p.index), answers) && result.commitId == None
  {
    ApplyAnswersMeaning(p.index, answers);
    var res := Resolutions(Conflicts(p.index), answers);
    AnswersStored(s, p, res, ApplyAnswers(p.index, res));
  }

  lemma AnswersStored(s: State, p: Pending, res: map<string, Object>, ix: Index)
    requires Valid(s) && ValidPending(s, p) && AllBlobs(res) && ix.entries == Overlay(p.index.entries, res)
    ensures var s1 := s.(odb := s.odb + res.Values);
            Keeps(s, s1) && ValidPending(s1, p) && ix.entries.Values <= s1.odb
  {
    forall o <- res.Values ensures o.Blob? {}
    AddBlobs(s, res.Values);
    AppliedBlobs(p.index, res, ix);
  }

  /** The merged entries with the answered contents over them. */
  function AnsweredFiles(ix: Index, answers: seq<Answer>): map<string, Object>
    requires |Conflicts(ix)| == |answers|
  {
    Overlay(ix.entries, Resolutions(Conflicts(ix), answers))
  }

  predicate FinishCommitted(r: Result<MergeResult>) { r.Ok? && r.value.commitId.Some? }

  /** A last phase either commits on top of the tip of that moment, leaving HEAD and working
      map in step, or leaves references and working map alone. */
  ghost predicate Phase3Law(s: State, p: Pending, s': State, r: Result<MergeResult>) {
    && Keeps(s, s')
    && (FinishCommitted(r) ==>
          && HeadId(s') == r.value.commitId && InSync(s') && (HeadId(s).Some? ==> HeadId(s) == Some(p.ours))
          && r.value.commitId.value.Commit? && r.value.commitId.value.parents == [p.ours, p.theirs])
    && (!FinishCommitted(r) ==> s'.refs == s.refs && s'.work == s.work)
  }

  lemma CommitAnswered(s: State, p: Pending, ix: Index)
    requires Concludable(s, p, ix) && ix.conflicts == map[]
    ensures var (s', r) := CreateMergeCommit(s, p.ours, p.theirs, ix, p.info);
            && Keeps(s, s')
            && (r.Ok? <==> CanConclude(s, p.ours))
            && (r.Err? ==> s'.refs == s.refs && s'.work == s.work)
            && (r.Ok? ==>
                  HeadId(s') == Some(r.value) && InSync(s') && IsMergeCommit(r.value, p.ours, p.theirs, ix.entries))
  {
    CreateMergeCommitKeeps(s, p.ours, p.theirs, ix, p.info);
    var (s', r) := CreateMergeCommit(s, p.ours, p.theirs, ix, p.info);
    if r.Ok? {
      HeadMoved(s, s', r.value);
      MergedInSync(s', ix, r.value);
    }
  }

  /** It commits, exactly these files, just when nothing is unresolved, committing was not
      disabled and HEAD is still at `ours`; it fails just when it would commit but HEAD has
      moved on, or is unborn and refused. */
  ghost predicate ConcludeLaw(s: State, p: Pending, wanted: bool, files: map<string, Object>,
                              s': State, r: Result<MergeResult>) {
    && Phase3Law(s, p, s', r)
    && (FinishCommitted(r) ==> IsMergeCommit(r.value.commitId.value, p.ours, p.theirs, files))
    && (FinishCommitted(r) <==> wanted && CanConclude(s, p.ours))
    && (r.Err? <==> wanted && !CanConclude(s, p.ours))
  }

  lemma ConcludeKeepsLaw(s: State, p: Pending, ix: Index, result: MergeResult)
    requires Concludable(s, p, ix) && result.commitId == None
    requires ix.conflicts == map[] <==> result.conflictList == []
    ensures var (s', r) := Conclude(s, p, ix, result);
            ConcludeLaw(s, p, result.conflictList == [] && !p.noCommit, ix.entries, s', r)
  {
    if result.conflictList == [] && !p.noCommit {
      CommitAnswered(s, p, ix);
    } else {
      DeleteFileKeeps(s, "");
    }
  }

  /** The declined conflicts, in order, and the paths of the settled ones. */
  predicate ReturnsLists(p: Pending, answers: seq<Answer>, result: MergeResult)
    requires |Conflicts(p.index)| == |answers|
  {
    && result == MergeResult(false, false, true, result.commitId, Unresolved(Conflicts(p.index), answers),
                             SortedKeys(Resolutions(Conflicts(p.index), answers).Keys))
    && (result.commitId.Some? <==> result.conflictList == [] && !p.noCommit)
  }

  lemma ReturnedLists(s: State, p: Pending, answers: seq<Answer>)
    requires |answers| == |p.index.conflicts|
    ensures |Conflicts(p.index)| == |answers|
    ensures FinishMerge(s, p, answers).1.Ok? ==> ReturnsLists(p, answers, FinishMerge(s, p, answers).1.value)
  {
    var (s1, ix, result) := Applied(s, p, answers);
    ConcludesAs(s1, p, ix, result);
  }

  lemma ConcludesAs(s: State, p: Pending, ix: Index, result: MergeResult)
    requires result.commitId == None
    ensures var r := Conclude(s, p, ix, result).1;
            r.Ok? ==> r.value == result.(commitId := r.value.commitId)
                      && (r.value.commitId.Some? <==> result.conflictList == [] && !p.noCommit)
  {
  }

  /** The last phase on any valid state that still has the merge's objects. */
  lemma FinishMergeLaw(s: State, p: Pending, answers: seq<Answer>)
    requires Valid(s) && ValidPending(s, p) && |answers| == |p.index.conflicts|
    ensures |Conflicts(p.index)| == |answers|
    ensures var (s', r) := FinishMerge(s, p, answers);
            ConcludeLaw(s, p, Unresolved(Conflicts(p.index), answers) == [] && !p.noCommit,
                        AnsweredFiles(p.index, answers), s', r)
    ensures FinishMerge(s, p, answers).1.Ok? ==> ReturnsLists(p, answers, FinishMerge(s, p, answers).1.value)
  {
    ReturnedLists(s, p, answers);
    AnswersApplied(s, p, answers);
    var (s1, ix, result) := Applied(s, p, answers);
    ConcludeKeepsLaw(s1, p, ix, result);
    var (s', r) := Conclude(s1, p, ix, result);
    ConcludedAfter(s, s1, p, result.conflictList == [] && !p.noCommit, ix.entries, s', r);
  }

  lemma ConcludedAfter(s: State, s1: State, p: Pending, wanted: bool, files: map<string, Object>,
                       s': State, r: Result<MergeResult>)
    requires Valid(s) && Keeps(s, s1) && s1.refs == s.refs && s1.work == s.work
             && ConcludeLaw(s1, p, wanted, files, s', r)
    ensures ConcludeLaw(s, p, wanted, files, s', r)
  {
    assert HeadId(s1) == HeadId(s);
  }

  // ---- The overlay view ----

  /** A path reads as content just when it is valid and the working map or HEAD has it. */
  lemma ReadsOverlay(s: State, path: string)
    requires Valid(s)
    ensures var files := HeadFiles(s) + s.work;
            && (Readable(s, path) <==> path in files)
            && (path in files ==> files[path].Blob? && ReadFile(s, path) == Ok(Some(files[path].data)))
  {
    HeadIsCommit(s);
    if HeadId(s).Some? {
      StoredFileRead(HeadId(s).value.tree, path);
    }
  }

  lemma StoredFileRead(t: Object, path: string)
    requires WfTree(t)
    ensures var e := EntryByPath(t, path);
            && (path in Flatten(t) <==> e.Some? && e.value.Blob?)
            && (path in Flatten(t) ==> ValidRepoPath(path) && e == Some(Flatten(t)[path]))
  {
    EntryByPathBlob(t, path);
    FlattenAt(t, path);
    FlattenStorable(t);
  }

  /** In step, reading sees exactly the working map. */
  lemma ReadsWorkInSync(s: State, path: string)
    requires Valid(s) && InSync(s)
    ensures Readable(s, path) <==> path in s.work
    ensures path in s.work ==> ReadFile(s, path) == Ok(Some(s.work[path].data))
  {
    ReadsOverlay(s, path);
    assert HeadFiles(s) + s.work == s.work;
  }
}
