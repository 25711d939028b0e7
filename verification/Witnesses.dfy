/** Runs of the operations that reach what the laws say can happen. */
module Witnesses {
  import opened Text
  import opened Paths
  import opened Objects
  import opened TreeBuilding
  import opened MergeResolution
  import opened RepositoryState
  import opened Operations
  import opened OperationLaws
  import opened Runs
  import opened Migration
  import opened ManagerCalls
  import opened ConfigWatcher
  import opened RemoteAddress

  const NEW := State({}, map[], map[], false)

  lemma NewValid()
    ensures Valid(NEW) && HeadId(NEW) == None
  {
  }

  lemma OneLetter(n: char)
    requires 'a' <= n <= 'z'
    ensures EntryNameOk([n]) && Split([n]) == [[n]] && StorablePath([n]) && ValidRepoPath([n])
  {
    assert '/' !in [n];
    StorableIsValid([n]);
  }

  lemma TwoLetters(a: char, b: char)
    requires 'a' <= a <= 'z' && 'a' <= b <= 'z'
    ensures StorablePath([a, '/', b]) && ValidRepoPath([a, '/', b]) && DirPrefix([a], [a, '/', b])
  {
    OneLetter(a);
    OneLetter(b);
    SplitFirst([a], [b]);
    assert [a] + "/" + [b] == [a, '/', b];
    StorableIsValid([a, '/', b]);
  }

  lemma MainIs()
    ensures MAIN == Branch("main") && HEAD != Branch("main")
  {
    assert HEAD[0] != Branch("main")[0];
  }

  lemma MainRefs(c: Object)
    ensures map[MAIN := Direct(c)][HEAD := Symbolic(MAIN)] ==
            map[Branch("main") := Direct(c), HEAD := Symbolic(Branch("main"))]
  {
    MainIs();
  }

  /** The first commit of a repository without references. */
  lemma CommitsFirst(s: State, info: string) returns (s': State, c: Object)
    requires Valid(s) && s.refs == map[] && s.work != map[] && AllStorable(s.work) && !s.onDisk
    ensures (s', Ok(c)) == CommitAll(s, info) && Valid(s') && HeadId(s') == Some(c) && c.Commit? && c.parents == []
    ensures s'.work == s.work && (InSync(s') <==> PrefixFree(s.work)) && Flatten(c.tree) == Prune(s.work)
    ensures !s'.onDisk
    ensures s'.refs == map[Branch("main") := Direct(c), HEAD := Symbolic(Branch("main"))]
  {
    CommitLaw(s, info);
    s', c := CommitAll(s, info).0, CommitAll(s, info).1.value;
    MainRefs(c);
  }

  /** A commit on top of HEAD. */
  lemma CommitsNext(s: State, info: string) returns (s': State, c: Object)
    requires Valid(s) && HeadId(s).Some? && s.work != map[] && AllStorable(s.work)
    ensures (s', Ok(c)) == CommitAll(s, info) && Valid(s') && HeadId(s') == Some(c) && c.Commit?
    ensures s'.onDisk == s.onDisk && s'.work == s.work && c.parents == [HeadId(s).value]
    ensures Flatten(c.tree) == Prune(s.work) && s'.refs == s.refs[HeadTarget(s) := Direct(c)]
  {
    CommitLaw(s, info);
    s', c := CommitAll(s, info).0, CommitAll(s, info).1.value;
  }

  /** One file committed to a new repository: HEAD is on main, at a commit of this file. */
  lemma FirstFile(data: Bytes) returns (s: State, c: Object)
    ensures Valid(s) && HeadId(s) == Some(c) && InSync(s) && c.Commit? && c.parents == [] && Flatten(c.tree) == s.work
    ensures s.refs == map[Branch("main") := Direct(c), HEAD := Symbolic(Branch("main"))]
    ensures s.work == map["f" := Blob(data)] && !s.onDisk
  {
    NewValid();
    OneLetter('f');
    var s1 := WriteFile(NEW, ['f'], data).0;
    WriteFileKeeps(NEW, ['f'], data);
    OneFile(['f'], Blob(data));
    s, c := CommitsFirst(s1, "");
  }

  lemma OneFile(p: string, b: Object)
    ensures PrefixFree(map[p := b]) && Prune(map[p := b]) == map[p := b]
  {
    SlashInside(p, p);
  }

  // ---- A file that is also a directory ----

  /** Writing "a" and "a/b" and committing succeeds, and "a" is missing from the commit. */
  lemma CoveredFile(d1: Bytes, d2: Bytes) returns (s: State, s': State, c: Object)
    ensures Valid(s) && s.work == map["a" := Blob(d1), "a/b" := Blob(d2)]
    ensures CommitAll(s, "") == (s', Ok(c)) && c.Commit? && !InSync(s')
    ensures "a" in s'.work && "a" !in Flatten(c.tree)
  {
    s := WritesBoth(d1, d2);
    Covers(s.work);
    s', c := CommitsFirst(s, "");
  }

  lemma WritesBoth(d1: Bytes, d2: Bytes) returns (s: State)
    ensures s == WriteFile(WriteFile(NEW, ['a'], d1).0, ['a', '/', 'b'], d2).0
    ensures Valid(s) && s.refs == map[] && !s.onDisk && AllStorable(s.work)
    ensures s.work == map["a" := Blob(d1), "a/b" := Blob(d2)]
  {
    NewValid();
    OneLetter('a');
    TwoLetters('a', 'b');
    var s1 := WriteFile(NEW, ['a'], d1).0;
    WriteFileKeeps(NEW, ['a'], d1);
    s := WriteFile(s1, ['a', '/', 'b'], d2).0;
    WriteFileKeeps(s1, ['a', '/', 'b'], d2);
  }

  lemma Covers(m: map<string, Object>)
    requires m.Keys == {"a", "a/b"}
    ensures m != map[] && "a" in m && "a" !in Prune(m) && !PrefixFree(m)
  {
    TwoLetters('a', 'b');
    assert Shadowed(['a'], m.Keys);
  }

  // ---- A tag that shadows a branch ----

  const V_REV := Rev("v", None, None)

  lemma VNames()
    ensures TagRef("v") !in {Branch("main"), Branch("v"), HEAD} && Branch("v") !in {Branch("main"), HEAD}
    ensures "v" !in {Branch("main"), Branch("v"), TagRef("v"), HEAD}
    ensures "refs/" + "v" !in {Branch("main"), Branch("v"), TagRef("v"), HEAD}
  {
    assert |TagRef("v")| == 11 && |Branch("v")| == 12 && |Branch("main")| == 15 && |HEAD| == 4 && |"refs/" + "v"| == 6;
  }

  /** A tag at the first commit, a second commit with another file, and a branch of the tag's name
      at it. */
  lemma TagThenBranch(d1: Bytes, d2: Bytes) returns (s: State, c: Object, d: Object)
    ensures Valid(s) && c.Commit? && Flatten(c.tree) == map[['f'] := Blob(d1)]
    ensures d.Commit? && Flatten(d.tree) == map[['f'] := Blob(d1), ['g'] := Blob(d2)]
    ensures s.refs.Keys == {Branch("main"), Branch("v"), TagRef("v"), HEAD}
    ensures s.refs[TagRef("v")] == Direct(c) && s.refs[Branch("v")] == Direct(d)
  {
    var s0;
    s0, c := FirstFile(d1);
    VNames();
    var s1 := TaggedHead(s0, c);
    var s2;
    s2, d := SecondFile(s1, d1, d2);
    assert HeadTarget(s1) == Branch("main");
    s := BranchedHead(s2, d);
  }

  lemma TaggedHead(s: State, c: Object) returns (s': State)
    requires Valid(s) && HeadId(s) == Some(c) && TagRef("v") !in s.refs && OnBranch(s, "main") && !s.onDisk
    ensures Valid(s') && HeadId(s') == Some(c) && s'.refs == s.refs[TagRef("v") := Direct(c)] && s'.work == s.work
    ensures OnBranch(s', "main") && !s'.onDisk
  {
    VNames();
    CreateTagKeeps(s, "v", true, None, None);
    s' := CreateTag(s, "v", true, None, None).0;
  }

  lemma BranchedHead(s: State, d: Object) returns (s': State)
    requires Valid(s) && HeadId(s) == Some(d) && d.Commit? && Branch("v") !in s.refs && !s.onDisk
    ensures Valid(s') && s'.refs == s.refs[Branch("v") := Direct(d)]
  {
    CreateBranchKeeps(s, "v", true, None);
    s' := CreateBranch(s, "v", true, None).0;
  }

  lemma SecondFile(s: State, d1: Bytes, d2: Bytes) returns (s': State, d: Object)
    requires Valid(s) && HeadId(s).Some? && s.work == map[['f'] := Blob(d1)]
    ensures Valid(s') && HeadId(s') == Some(d) && d.Commit? && s'.refs == s.refs[HeadTarget(s) := Direct(d)]
    ensures s'.onDisk == s.onDisk
    ensures Flatten(d.tree) == map[['f'] := Blob(d1), ['g'] := Blob(d2)]
  {
    var s1 := AddsFile(s, d1, d2);
    TwoFiles(Blob(d1), Blob(d2));
    s', d := CommitsNext(s1, "");
  }

  lemma AddsFile(s: State, d1: Bytes, d2: Bytes) returns (s': State)
    requires Valid(s) && s.work == map[['f'] := Blob(d1)]
    ensures Valid(s') && s' == WriteFile(s, ['g'], d2).0 && s'.refs == s.refs && s'.onDisk == s.onDisk
    ensures HeadId(s') == HeadId(s) && HeadTarget(s') == HeadTarget(s)
    ensures s'.work == map[['f'] := Blob(d1), ['g'] := Blob(d2)] && AllStorable(s'.work)
  {
    OneLetter('f');
    OneLetter('g');
    s' := WriteFile(s, ['g'], d2).0;
    WriteFileKeeps(s, ['g'], d2);
    SameRefsSameHead(s, s');
  }

  lemma TwoFiles(a: Object, b: Object)
    ensures Prune(map[['f'] := a, ['g'] := b]) == map[['f'] := a, ['g'] := b]
  {
    SlashInside(['f'], ['g']);
    SlashInside(['g'], ['f']);
    SlashInside(['f'], ['f']);
    SlashInside(['g'], ['g']);
  }

  /** Checking out that name succeeds, with the files of the tag and HEAD on the branch. */
  lemma ShadowingTag(d1: Bytes, d2: Bytes) returns (s: State)
    ensures Valid(s) && TagRef("v") in s.refs && Branch("v") in s.refs
    ensures Checkout(s, V_REV).1.Ok? && OnBranch(Checkout(s, V_REV).0, "v") && !InSync(Checkout(s, V_REV).0)
  {
    var c, d;
    s, c, d := TagThenBranch(d1, d2);
    VNames();
    assert ['g'] in Flatten(d.tree) && ['g'] !in Flatten(c.tree);
    ChecksOutTag(s, c, d);
  }

  lemma ChecksOutTag(s: State, c: Object, d: Object)
    requires Valid(s) && NamesTag(s, V_REV, c) && Branch("v") in s.refs && s.refs[Branch("v")] == Direct(d)
    requires c.Commit? && d.Commit? && c.tree != d.tree
    ensures Checkout(s, V_REV).1.Ok? && OnBranch(Checkout(s, V_REV).0, "v") && !InSync(Checkout(s, V_REV).0)
  {
    TagResolves(s, V_REV, c);
    CheckoutLaw(s, V_REV);
  }

  // ---- A branch that migration loses ----

  const NO_FAULTS := Faults(Some("dir"), true, true, {}, {}, {}, true, {}, {}, {}, true, true, "refs/heads/main")

  lemma Nested()
    ensures DirPrefix(Branch("a"), Branch("a/b")) && Branch("a") != Branch("a/b")
    ensures Branch("a") !in {Branch("main"), HEAD} && Branch("a/b") !in {Branch("main"), HEAD}
  {
    assert |Branch("a")| == 12 && |Branch("a/b")| == 14 && |Branch("main")| == 15 && |HEAD| == 4;
    assert Branch("a/b") == Branch("a") + "/" + "b";
  }

  lemma LosesNested(s: State)
    requires Branch("a") in s.refs && Branch("a/b") in s.refs
    ensures Succeeds(s, NO_FAULTS) && NoFaults(s, NO_FAULTS) && Branch("a/b") !in Migrated(s, NO_FAULTS).refs
  {
    Nested();
    KeepsAllRefsIff(s, NO_FAULTS);
    assert !Unblocked(Branch("a/b"), s.refs.Keys + {HEAD});
  }

  /** Branches "a" and "a/b" can both be made in memory; a migration without any other fault then
      succeeds and loses the second. */
  lemma LostBranch(data: Bytes) returns (s: State, s1: State, s2: State)
    ensures Valid(s) && HeadId(s).Some?
    ensures CreateBranch(s, "a", true, None) == (s1, Ok(())) && CreateBranch(s1, "a/b", true, None) == (s2, Ok(()))
    ensures Succeeds(s2, NO_FAULTS) && NoFaults(s2, NO_FAULTS)
    ensures Branch("a/b") in s2.refs && Branch("a/b") !in Migrated(s2, NO_FAULTS).refs
  {
    var c;
    s, c := FirstFile(data);
    Nested();
    s1, s2 := BranchTwice(s, c, "a", "a/b");
    LosesNested(s2);
  }

  lemma BranchTwice(s: State, c: Object, a: string, b: string) returns (s1: State, s2: State)
    requires Valid(s) && HeadId(s) == Some(c) && c.Commit? && !s.onDisk
    requires Branch(a) !in s.refs && Branch(b) !in s.refs && Branch(a) != Branch(b)
    ensures CreateBranch(s, a, true, None) == (s1, Ok(())) && CreateBranch(s1, b, true, None) == (s2, Ok(()))
    ensures Branch(a) in s2.refs && Branch(b) in s2.refs
  {
    HeadIsCommit(s);
    CreateBranchKeeps(s, a, true, None);
    s1 := CreateBranch(s, a, true, None).0;
    s2 := CreateBranch(s1, b, true, None).0;
  }

  // ---- An unreported conflict ----

  const TRACKING := "refs/remotes/origin/main"

  lemma TrackingIs()
    ensures !IsBranchRef(TRACKING) && TRACKING != HEAD && TRACKING != Branch("main")
  {
    assert TRACKING[5] != Branch("")[5] && TRACKING[0] != HEAD[0] && TRACKING[5] != Branch("main")[5];
  }

  /** Another commit of the file "f", as a fetch may bring it. */
  lemma FetchOther(s: State, data: Bytes) returns (s': State, c: Object)
    requires Valid(s)
    ensures Fetches(s, s') && c.Commit? && c.parents == [] && Flatten(c.tree) == map["f" := Blob(data)]
    ensures s'.refs == s.refs[TRACKING := Direct(c)]
  {
    var s2, tree := StoreFile(s, data);
    c := Object.Commit(tree, [], "");
    NewCommitClosed(s2.odb, c);
    s' := BringsCommit(s, s2, c);
  }

  lemma BringsCommit(s: State, s2: State, c: Object) returns (s': State)
    requires Valid(s) && s2.refs == s.refs && s2.work == s.work && s.odb <= s2.odb && Closed(s2.odb + {c})
    ensures s' == s.(odb := s2.odb + {c}, refs := s.refs[TRACKING := Direct(c)]) && Fetches(s, s')
  {
    s' := s.(odb := s2.odb + {c}, refs := s.refs[TRACKING := Direct(c)]);
    TrackingIs();
  }

  lemma StoreFile(s: State, data: Bytes) returns (s2: State, tree: Object)
    requires Valid(s)
    ensures Valid(s2) && s2.refs == s.refs && s2.work == s.work && s.odb <= s2.odb
    ensures WfTree(tree) && tree in s2.odb && Flatten(tree) == map["f" := Blob(data)]
  {
    OneLetter('f');
    OneFile(['f'], Blob(data));
    AddBlobs(s, {Blob(data)});
    var s1, m := s.(odb := s.odb + {Blob(data)}), map[['f'] := Blob(data)];
    StoreTreeOf(s1, m);
    FlattenTreeOf(m);
    tree := TreeOf(m);
    s2 := s1.(odb := s1.odb + Subtrees(tree));
  }

  const DETECT := MergeOpts("detect", false, false, "")

  function BothAdded(d1: Bytes, d2: Bytes): Index {
    Index(map[], map["f" := Sides(None, Some(Blob(d1)), Some(Blob(d2)))])
  }

  lemma DetectsConflict(s: State, ours: Object, theirs: Object, d1: Bytes, d2: Bytes) returns (result: MergeResult)
    requires HeadId(s) == Some(ours) && ours.Commit? && theirs.Commit? && ours.parents == [] && theirs.parents == []
    requires ours != theirs && TRACKING in s.refs && s.refs[TRACKING] == Direct(theirs)
    ensures BeginMerge(s, Rev(TRACKING, None, None), DETECT, Some(BothAdded(d1, d2))).1 == Ok(Done(result))
    ensures result.conflicts && result.conflictList != []
  {
    FromTracking(s, theirs);
    assert !IsAncestor(ours, theirs) && !IsAncestor(theirs, ours);
    assert "f" in BothAdded(d1, d2).conflicts;
    result := MergeResult(false, false, true, None, Conflicts(BothAdded(d1, d2)), []);
    assert |result.conflictList| == |BothAdded(d1, d2).conflicts| == 1;
  }

  lemma BothAddedValid(d1: Bytes, d2: Bytes)
    ensures ValidIndex(BothAdded(d1, d2))
  {
    OneLetter('f');
  }

  function PullOf(fetched: State, d1: Bytes, d2: Bytes): Remote {
    Remote("", fetched, true, fetched, fetched,
        MergeCall(Rev(TRACKING, None, None), DETECT, Some(BothAdded(d1, d2)), fetched, []))
  }

  lemma DoneMerge(s: State, c: MergeCall, result: MergeResult)
    requires c.merged.Some? && ValidIndex(c.merged.value)
    requires BeginMerge(s, c.rev, c.opts, c.merged).1 == Ok(Done(result))
    ensures MergeCallOk(s, c) && Undisturbed(s, c) && Merge(s, c).1 == Ok(result)
  {
  }

  lemma PullsDone(s: State, e: Remote, result: MergeResult)
    requires Valid(s) && Fetches(s, e.fetched) && e.fetchOk && e.looked == e.fetched && e.merging == e.fetched
    requires CurrentBranch(e.fetched) == Some("main")
    requires e.merge.rev == Rev(TrackingRef(e.fetched, e.name, "main"), None, None)
    requires MergeCallOk(e.fetched, e.merge) && Undisturbed(e.fetched, e.merge)
             && Merge(e.fetched, e.merge).1 == Ok(result)
    ensures RemoteOk(s, e) && Alone(e) && Pull(s, e).1 == Ok(result)
  {
    FetchesKeeps(s, e.fetched);
  }

  lemma TracksMain(s: State)
    requires TRACKING in s.refs
    ensures TrackingRef(s, "", "main") == TRACKING
  {
    assert "refs/remotes/" + "origin" + "/" + "main" == TRACKING;
  }

  lemma PullDetects(s: State, fetched: State, ours: Object, theirs: Object, d1: Bytes, d2: Bytes, e: Remote)
    requires Valid(s) && Fetches(s, fetched) && HeadId(fetched) == Some(ours) && CurrentBranch(fetched) == Some("main")
    requires ours.Commit? && theirs.Commit? && ours.parents == [] && theirs.parents == [] && ours != theirs
    requires TRACKING in fetched.refs && fetched.refs[TRACKING] == Direct(theirs) && e == PullOf(fetched, d1, d2)
    ensures RemoteOk(s, e) && Alone(e)
    ensures Pull(s, e).1.Ok? && Pull(s, e).1.value.conflicts && Pull(s, e).1.value.conflictList != []
  {
    BothAddedValid(d1, d2);
    var result := DetectsConflict(fetched, ours, theirs, d1, d2);
    DoneMerge(fetched, e.merge, result);
    TracksMain(fetched);
    PullsDone(s, e, result);
  }

  lemma OnMain(s: State, c: Object)
    requires Branch("main") in s.refs && HEAD in s.refs && s.refs[Branch("main")] == Direct(c)
    requires s.refs[HEAD] == Symbolic(Branch("main"))
    ensures HeadId(s) == Some(c) && CurrentBranch(s) == Some("main")
  {
    assert Resolve(s.refs, Branch("main"), 5) == Some(ResolvedRef(Branch("main"), c));
  }

  /** Both sides added the file "f" with different contents. The watcher's poll pulls, the merge
      only detects the conflict, nobody else does anything: no event is sent. */
  lemma UnreportedConflict(d1: Bytes, d2: Bytes) returns (s: State, e: Remote, w: Watched)
    requires d1 != d2
    ensures Valid(s) && RemoteOk(s, e) && Alone(e) && w.lastHead == HeadId(s)
    ensures Pull(s, e).1.Ok? && Pull(s, e).1.value.conflicts && Pull(s, e).1.value.conflictList != []
    ensures forall diff :: Observe(w, Poll(Pull(s, e).1, HeadId(Pull(s, e).0), diff)) == w
  {
    var ours, fetched, theirs;
    s, ours := FirstFile(d1);
    fetched, theirs := FetchOther(s, d2);
    TrackingIs();
    OnMain(fetched, ours);
    DifferentFiles(ours, theirs, d1, d2);
    e, w := PullOf(fetched, d1, d2), Watched(HeadId(s), []);
    PullDetects(s, fetched, ours, theirs, d1, d2, e);
    NoEvent(s, e, w);
  }

  lemma DifferentFiles(ours: Object, theirs: Object, d1: Bytes, d2: Bytes)
    requires ours.Commit? && theirs.Commit? && d1 != d2
    requires Flatten(ours.tree) == map["f" := Blob(d1)] && Flatten(theirs.tree) == map["f" := Blob(d2)]
    ensures ours != theirs
  {
    assert Flatten(ours.tree)["f"] == Blob(d1) && Flatten(theirs.tree)["f"] == Blob(d2);
  }

  lemma NoEvent(s: State, e: Remote, w: Watched)
    requires Valid(s) && RemoteOk(s, e) && Alone(e) && w.lastHead == HeadId(s)
    requires Pull(s, e).1.Ok? && Pull(s, e).1.value.conflictList != []
    ensures forall diff :: Observe(w, Poll(Pull(s, e).1, HeadId(Pull(s, e).0), diff)) == w
  {
    forall diff ensures Observe(w, Poll(Pull(s, e).1, HeadId(Pull(s, e).0), diff)) == w {
      ConflictsUnreported(s, e, w, diff);
    }
  }

  // ---- An unnoticed birth of HEAD ----

  /** A new repository gets a remote, which moves it to a directory and leaves HEAD waiting for
      main; a fetch brings a commit; creating the environment main from it gives birth to HEAD,
      and the manager still remembers none. */
  lemma UnnoticedBirth(data: Bytes) returns (m: Managed, call: Call, m': Managed)
    ensures Succeeds(NEW, NO_FAULTS) && Fetches(Migrated(NEW, NO_FAULTS), m.repo)
    ensures Valid(m.repo) && InStep(m) && Returns(m, call, m') && !InStep(m')
  {
    NewValid();
    MigratedValid(NEW, NO_FAULTS);
    var s := Migrated(NEW, NO_FAULTS);
    MigratedNew(s);
    var fetched, c := FetchOther(s, data);
    FetchesKeeps(s, fetched);
    TrackingIs();
    MainIs();
    m, call := Managed(fetched, None), NewEnvironment("main", true, Some(Rev(TRACKING, None, None)));
    FromTracking(fetched, c);
    MainFree(fetched);
    m' := m.(repo := CreateBranch(fetched, "main", true, call.from).0);
    CallInStep(m, call, m');
  }

  /** In a directory a branch below main keeps main from being made: a new repository gets a
      remote, a fetch brings a commit, a branch is made at it, and the first commit fails. */
  lemma RefusedFirstCommit(d1: Bytes, d2: Bytes) returns (fetched: State, s: State)
    ensures Fetches(Migrated(NEW, NO_FAULTS), fetched) && Valid(s) && HeadId(s) == None && Branch("main") !in s.refs
    ensures var (s1, r) := CreateBranch(fetched, "main/x", true, Some(Rev(TRACKING, None, None)));
            r.Ok? && WriteFile(s1, ['f'], d2) == (s, Ok(()))
    ensures forall info :: CommitAll(s, info).1.Err?
  {
    NewValid();
    MigratedValid(NEW, NO_FAULTS);
    MigratedNew(Migrated(NEW, NO_FAULTS));
    var c;
    fetched, c := FetchOther(Migrated(NEW, NO_FAULTS), d1);
    FetchesKeeps(Migrated(NEW, NO_FAULTS), fetched);
    FromTracking(fetched, c);
    var s1 := BelowMain(fetched, c);
    OneLetter('f');
    s := WriteFile(s1, ['f'], d2).0;
    WriteFileKeeps(s1, ['f'], d2);
    SameRefsSameHead(s1, s);
    MainRefused(s);
  }

  /** A branch "main/x" made in a directory where HEAD waits for main. */
  lemma BelowMain(s: State, c: Object) returns (s': State)
    requires Valid(s) && s.onDisk && s.refs == map[HEAD := Symbolic(Branch("main")), TRACKING := Direct(c)]
    requires RevParse(s, Rev(TRACKING, None, None)) == Some(c) && c.Commit?
    ensures CreateBranch(s, "main/x", true, Some(Rev(TRACKING, None, None))) == (s', Ok(())) && Valid(s')
    ensures s'.refs == s.refs[Branch("main/x") := Direct(c)] && s'.onDisk && HeadId(s') == None
  {
    var from := Some(Rev(TRACKING, None, None));
    TrackingIs();
    BelowFree();
    CreateBranchKeeps(s, "main/x", true, from);
    s' := CreateBranch(s, "main/x", true, from).0;
    HeadIsCommit(s');
  }

  lemma BelowFree()
    ensures Branch("main/x") !in {HEAD, TRACKING, Branch("main")}
    ensures PathFree({HEAD, TRACKING}, Branch("main/x")) && DirPrefix(Branch("main"), Branch("main/x"))
  {
    assert Branch("main/x") == Branch("main") + "/" + "x";
    assert |Branch("main")| == 15 && |Branch("main/x")| == 17 && Branch("main/x")[0] != HEAD[0];
    assert TRACKING[5] != Branch("main/x")[5];
  }

  lemma MainRefused(s: State)
    requires Valid(s) && s.onDisk && HeadId(s) == None && Branch("main/x") in s.refs
    ensures forall info :: CommitAll(s, info).1.Err?
  {
    BelowFree();
    MainIs();
    assert !CanStartMain(s);
    forall info ensures CommitAll(s, info).1.Err? { CommitLaw(s, info); }
  }

  lemma MainFree(s: State)
    requires s.refs.Keys == {HEAD, TRACKING}
    ensures Branch("main") !in s.refs && RefFree(s, Branch("main"))
  {
    TrackingIs();
    MainIs();
    assert Branch("main")[0] != HEAD[0] && TRACKING[5] != Branch("main")[5];
  }

  lemma MigratedNew(s: State)
    requires s == Migrated(NEW, NO_FAULTS)
    ensures s.refs == map[HEAD := Symbolic(Branch("main"))] && s.odb == {} && s.work == map[] && s.onDisk
  {
    CopiedExact(NEW, NO_FAULTS);
    MainIs();
    assert Surviving(NEW) == map[];
  }

  lemma FromTracking(s: State, c: Object)
    requires TRACKING in s.refs && s.refs[TRACKING] == Direct(c)
    ensures RevParse(s, Rev(TRACKING, None, None)) == Some(c)
  {
    var names := DwimNames(TRACKING);
    assert names[0] == TRACKING && Resolve(s.refs, TRACKING, 5) == Some(ResolvedRef(TRACKING, c));
  }

  // ---- Proposing, and a fast-forward that was not to commit ----

  lemma FetchesItself(s: State)
    requires Valid(s)
    ensures Fetches(s, s)
  {
  }

  const MAIN_REV := Rev("main", None, None)
  const X_REV := Rev("x", None, None)

  lemma ShortNames(s: State)
    requires s.refs.Keys <= {Branch("main"), Branch("x"), HEAD}
    ensures PlainName(s, MAIN_REV) && PlainName(s, X_REV) && NotHiddenBy("main", "x")
  {
    assert |Branch("main")| == 15 && |Branch("x")| == 12 && |HEAD| == 4;
    assert |"refs/" + "main"| == 9 && |TagRef("main")| == 14 && |"refs/" + "x"| == 6 && |TagRef("x")| == 11;
    assert "main"[0] != HEAD[0];
  }

  lemma Proposable(s: State, p: Proposal, d1: Bytes, d2: Bytes)
    requires p.nameOk && Branch(p.branch.text) !in s.refs && !s.onDisk && d2 != []
    requires s.work == map[['f'] := Blob(d1), ['g'] := Blob(d2)]
    ensures CanProposePlainly(s, p)
  {
    OneLetter('f');
    OneLetter('g');
    assert ['g'] in SavedBlobs(Saved(s));
  }

  /** On main, with a second file written but not committed. */
  lemma PendingFile(d1: Bytes, d2: Bytes) returns (s: State)
    ensures Valid(s) && HeadId(s).Some? && CurrentBranch(s) == Some("main") && PlainName(s, MAIN_REV)
            && PlainName(s, X_REV)
    ensures Branch("x") !in s.refs && HEAD in s.refs && s.refs.Keys == {Branch("main"), HEAD} && !s.onDisk
    ensures s.work == map[['f'] := Blob(d1), ['g'] := Blob(d2)]
  {
    var s0, c := FirstFile(d1);
    OneLetter('g');
    s := WriteFile(s0, ['g'], d2).0;
    WriteFileKeeps(s0, ['g'], d2);
    OnMain(s, c);
    ShortNames(s);
    assert |Branch("x")| == 12 && |Branch("main")| == 15 && |HEAD| == 4;
  }

  function ProposalWith(branch: Rev, pushed: State): Proposal {
    Proposal(branch, true, MAIN_REV, "", pushed, Ok(()))
  }

  lemma Proposed(s: State) returns (oid: Object, s': State)
    requires Valid(s) && CurrentBranch(s) == Some("main") && PlainName(s, MAIN_REV) && PlainName(s, X_REV)
    requires s.refs.Keys == {Branch("main"), HEAD} && CanProposePlainly(s, ProposalWith(X_REV, s))
    ensures ProposeLocally(s, ProposalWith(X_REV, s)) == (s', Ok(oid)) && Valid(s') && PlainName(s', X_REV)
  {
    ShortNames(s);
    ProposeOnBranch(s, ProposalWith(X_REV, s));
    ProposeAdvances(s, ProposalWith(X_REV, s));
    var r := ProposeLocally(s, ProposalWith(X_REV, s)).1;
    s', oid := ProposeLocally(s, ProposalWith(X_REV, s)).0, r.value;
    assert s'.refs.Keys <= {Branch("main"), Branch("x"), HEAD};
    ShortNames(s');
  }

  /** What a push does later changes nothing of it. */
  lemma SameLocally(s: State, rev: Rev, a: State, b: State)
    ensures ProposeLocally(s, ProposalWith(rev, a)) == ProposeLocally(s, ProposalWith(rev, b))
  {
    var p, q := ProposalWith(rev, a), ProposalWith(rev, b);
    assert OpenBranch(s, p) == OpenBranch(s, q);
    var s1 := Reapplied(OpenBranch(s, p).0, Saved(s));
    assert CloseBranch(s1, p, CurrentBranch(s).Some?) == CloseBranch(s1, q, CurrentBranch(s).Some?);
  }

  const NO_COMMIT := MergeOpts("detect", false, true, "")

  /** A proposal with one new file, and its application, which fast-forwards to it. */
  lemma AppliedProposal(d1: Bytes, d2: Bytes)
    returns (m: Managed, p: Proposal, oid: Object, m1: Managed, c: MergeCall)
    requires d2 != []
    ensures Valid(m.repo) && CurrentBranch(m.repo) == Some(p.base.text) && PlainName(m.repo, p.branch)
    ensures PlainName(m.repo, p.base) && NotHiddenBy(p.base.text, p.branch.text)
    ensures ProposalOk(m.repo, p) && Proposes(m, p, Ok(oid), m1)
    ensures c.rev.text == p.branch.text && BranchNameOnly(m1.repo, c.rev) && c.opts == DETECT
    ensures FastForwardedTo(ApplyProposal(m1, c).1, oid)
    ensures HeadId(ApplyProposal(m1, c).0.repo) == Some(oid) && HeadId(m1.repo) != Some(oid)
  {
    var s := PendingFile(d1, d2);
    Proposable(s, ProposalWith(X_REV, s), d1, d2);
    var s';
    oid, s' := Proposed(s);
    m, p, m1 := Managed(s, HeadId(s)), ProposalWith(X_REV, s'), Managed(s', HeadId(s'));
    SameLocally(s, X_REV, s, s');
    FetchesItself(s');
    ShortNames(s);
    c := MergeCall(X_REV, DETECT, None, s', []);
    ProposeThenApply(m, p, Ok(oid), m1, c);
    ParentIsOlder(oid, 0);
  }

  /** A merge of that proposal that was told not to commit moves HEAD to it all the same. */
  lemma ForwardDespiteNoCommit(d1: Bytes, d2: Bytes) returns (s: State, c: MergeCall, oid: Object)
    requires d2 != []
    ensures Valid(s) && c.opts == NO_COMMIT && FastForwardedTo(Merge(s, c).1, oid)
    ensures HeadId(Merge(s, c).0) == Some(oid) && HeadId(s).Some? && HeadId(s) != Some(oid)
  {
    var m, p, m1, applied;
    m, p, oid, m1, applied := AppliedProposal(d1, d2);
    s, c := m1.repo, applied.(opts := NO_COMMIT);
    ProposeLaw(m, p, Ok(oid), m1);
    ProposalAppliesIff(m, p, Ok(oid), m1, applied);
    AppliesIff(s, c, oid);
  }

  // ---- A proposal with the name of a tag ----

  /** The file "f" replaced by "g". */
  lemma ReplacesFile(s: State, d1: Bytes, d2: Bytes) returns (s': State, d: Object)
    requires Valid(s) && HeadId(s).Some? && s.work == map[['f'] := Blob(d1)] && !s.onDisk
    ensures Valid(s') && HeadId(s') == Some(d) && d.Commit? && d.parents == [HeadId(s).value] && !s'.onDisk
    ensures s'.refs == s.refs[HeadTarget(s) := Direct(d)] && s'.work == map[['g'] := Blob(d2)]
    ensures Flatten(d.tree) == s'.work
  {
    OneLetter('f');
    OneLetter('g');
    var s1 := DeleteFile(s, ['f']).0;
    DeleteFileKeeps(s, ['f']);
    var s2 := WriteFile(s1, ['g'], d2).0;
    WriteFileKeeps(s1, ['g'], d2);
    SameRefsSameHead(s, s2);
    assert s1.work == map[];
    OneFile(['g'], Blob(d2));
    s', d := CommitsNext(s2, "");
  }

  /** A tag "v" at a commit of "f", and main at a commit that has "g" instead. */
  lemma TagBehind(d1: Bytes, d2: Bytes) returns (s: State, c: Object, d: Object)
    ensures Valid(s) && HeadId(s) == Some(d) && d.Commit? && d.parents == [c] && c.Commit? && !s.onDisk
    ensures Flatten(c.tree) == map[['f'] := Blob(d1)] && Flatten(d.tree) == s.work == map[['g'] := Blob(d2)]
    ensures s.refs.Keys == {Branch("main"), TagRef("v"), HEAD} && CurrentBranch(s) == Some("main")
    ensures NamesTag(s, V_REV, c) && PlainName(s, MAIN_REV) && NotHiddenBy("main", "v") && Branch("v") !in s.refs
  {
    var s0;
    s0, c := FirstFile(d1);
    VNames();
    var s1 := TaggedHead(s0, c);
    s, d := ReplacesFile(s1, d1, d2);
    OnMain(s, d);
    BehindNames(s);
  }

  lemma BehindNames(s: State)
    requires s.refs.Keys == {Branch("main"), TagRef("v"), HEAD}
    ensures PlainName(s, MAIN_REV) && NotHiddenBy("main", "v") && Branch("v") !in s.refs
    ensures "v" !in s.refs && "refs/" + "v" !in s.refs
  {
    VNames();
    assert |Branch("main")| == 15 && |TagRef("v")| == 11 && |HEAD| == 4 && |"refs/" + "main"| == 9;
    assert |TagRef("main")| == 14 && "main"[0] != HEAD[0] && |Branch("v")| == 12;
  }

  lemma HiddenCanPropose(s: State, p: Proposal, c: Object, d2: Bytes)
    requires Valid(s) && HeadId(s).Some? && CurrentBranch(s) == Some("main") && PlainName(s, MAIN_REV) && !s.onDisk
    requires p == ProposalWith(V_REV, s) && NamesTag(s, V_REV, c) && c.Commit? && Branch("v") !in s.refs
    requires NotHiddenBy("main", "v") && s.work == map[['g'] := Blob(d2)] && d2 != []
    ensures CanPropose(s, p) && ReadAsBase(s, p).Some? && ReadAsBranch(s, p) == Some(c)
    ensures ProposedFiles(s, p) == Flatten(c.tree)[['g'] := Blob(d2)]
  {
    OnCurrentBranch(s);
    ReadAsTag(s, p, c);
    SavesOne(s, d2);
    AddsOne(Flatten(c.tree), ['g'], Blob(d2));
    ReadsMain(s, p);
  }

  lemma AddsOne(m: map<string, Object>, path: string, b: Object)
    ensures m + map[path := b] == m[path := b] != map[]
  {
    assert path in m[path := b];
  }

  lemma SavesOne(s: State, d2: Bytes)
    requires s.work == map[['g'] := Blob(d2)] && d2 != []
    ensures SavedBlobs(Saved(s)) == map[['g'] := Blob(d2)] && AllStorable(Saved(s))
  {
    OneLetter('g');
    assert Saved(s) == map[['g'] := d2];
  }

  lemma ReadsMain(s: State, p: Proposal)
    requires Valid(s) && CurrentBranch(s) == Some(p.base.text) && CanBranch(s, p) && ReadAsBranch(s, p).Some?
    requires PlainName(s, p.base) && NotHiddenBy(p.base.text, p.branch.text)
    ensures ReadAsBase(s, p).Some?
  {
    OpenBranchLaw(s, p);
    FilledLaw(s, p);
    BaseReadAsTip(s, p, Filled(s, p));
  }

  /** A proposal from main under the tag's name commits the file that main no longer has; applying
      it by that name finds the tag, which is up to date, and leaves HEAD where it was. */
  lemma HiddenProposal(d1: Bytes, d2: Bytes)
    returns (m: Managed, p: Proposal, oid: Object, m1: Managed, c: MergeCall)
    requires d2 != []
    ensures Valid(m.repo) && ProposalOk(m.repo, p) && Proposes(m, p, Ok(oid), m1) && oid.Commit?
    ensures ['f'] in Flatten(oid.tree) && ['f'] !in m.repo.work && ['f'] !in HeadFiles(m.repo)
    ensures c.rev.text == p.branch.text && c.opts == DETECT
    ensures ApplyProposal(m1, c).1.Ok? && ApplyProposal(m1, c).1.value.upToDate
    ensures HeadId(ApplyProposal(m1, c).0.repo) == HeadId(m.repo) != Some(oid)
  {
    var s, tagged, d := TagBehind(d1, d2);
    var s';
    oid, s' := ProposedHidden(s, tagged, d1, d2);
    m, p, m1 := Managed(s, HeadId(s)), ProposalWith(V_REV, s'), Managed(s', HeadId(s'));
    SameLocally(s, V_REV, s, s');
    FetchesItself(s');
    c := MergeCall(V_REV, DETECT, None, s', []);
    MergesNothing(s', c, tagged, d);
    ParentIsOlder(oid, 0);
  }

  lemma ProposedHidden(s: State, tagged: Object, d1: Bytes, d2: Bytes) returns (oid: Object, s': State)
    requires Valid(s) && HeadId(s).Some? && CurrentBranch(s) == Some("main") && PlainName(s, MAIN_REV) && !s.onDisk
    requires NamesTag(s, V_REV, tagged) && tagged.Commit? && Flatten(tagged.tree) == map[['f'] := Blob(d1)]
    requires Branch("v") !in s.refs && NotHiddenBy("main", "v") && s.work == map[['g'] := Blob(d2)] && d2 != []
    ensures ProposeLocally(s, ProposalWith(V_REV, s)) == (s', Ok(oid)) && Valid(s') && HeadId(s') == HeadId(s)
    ensures oid.Commit? && oid.parents == [HeadId(s).value] && ['f'] in Flatten(oid.tree)
    ensures RevParse(s', V_REV) == Some(tagged)
  {
    var q := ProposalWith(V_REV, s);
    HiddenCanPropose(s, q, tagged, d2);
    ProposeExact(s, q);
    HiddenByTag(s, q, tagged);
    TwoFiles(Blob(d1), Blob(d2));
    s', oid := ProposeLocally(s, q).0, ProposeLocally(s, q).1.value;
    ProposeAdvances(s, q);
  }

  lemma MergesNothing(s: State, c: MergeCall, theirs: Object, ours: Object)
    requires RevParse(s, c.rev) == Some(theirs) && HeadId(s) == Some(ours) && OptsOk(c.opts)
    requires theirs.Commit? && ours.Commit? && ours.parents == [theirs]
    ensures Merge(s, c).0 == s && Merge(s, c).1.Ok? && Merge(s, c).1.value.upToDate
  {
    assert IsAncestor(theirs, ours.parents[0]);
  }

  // ---- An address whose path has an "@" ----

  lemma NoScheme(u: string)
    requires '/' !in u
    ensures FindText(u, "://") < 0
  {
    forall k | 0 <= k <= |u| ensures !("://" <= u[k..]) {
      if |u[k..]| > 1 { assert u[k..][1] == u[k + 1] && u[k + 1] in u; }
    }
  }

  lemma HostIsBehindAt(u: string, host: string, before: string, after: string)
    requires u == PrintScp(None, host, before + "@" + after) && '/' !in u && u[0] != '.'
    requires host != "" && '@' !in host && '@' !in before && ':' !in after && after != ""
    ensures ParseAddress(u) == Some(HostPort(after, 22))
  {
    NoScheme(u);
    assert u[0] != '/' by { assert u[0] in u; }
    ScpHostFromPath(u, host, before, after);
    FindAbsent(after, ':');
  }

  /** The host of "host:a@b" is taken to be "b". */
  lemma WrongHost() returns (u: string)
    ensures u == "host:a@b" && ParseAddress(u) == Some(HostPort("b", 22))
  {
    u := PrintScp(None, "host", "a" + "@" + "b");
    assert u == "host:a@b";
    HostIsBehindAt(u, "host", "a", "b");
  }

  /** The host of a literal address that begins with a colon is taken to be its bracket. */
  lemma CutLiteral(u: string, rest: string, path: string)
    requires u == PrintScp(None, "[" + (":" + rest) + "]", path) && '/' !in u && '@' !in rest && '@' !in path
    ensures ParseAddress(u) == Some(HostPort("[", 22))
  {
    NoScheme(u);
    assert u[0] == '[';
    ScpBracketed(u, None, ":" + rest, path);
    UpToFirst("", ':', ":" + rest);
    assert "" + (":" + rest) == ":" + rest && "[" + "" == "[";
  }
}
