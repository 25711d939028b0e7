/** What single operations do to what their callers see: the files that can be read, the references
    by their full names, and what a text refers to. */
module Effects {
  import opened Text
  import opened Paths
  import opened Objects
  import opened TreeBuilding
  import opened RepositoryState
  import opened TreeStoring
  import opened Operations
  import opened OperationLaws
  import opened Runs

  // ---- Reading ----

  /** A path without the slash at its end. */
  function Trimmed(path: string): string {
    if path != "" && path[|path| - 1] == '/' then path[..|path| - 1] else path
  }

  /** Some file of the tree is in the directory of this name. */
  predicate IsDirectory(files: map<string, Object>, path: string) {
    exists q <- files :: Trimmed(path) + "/" <= q
  }

  lemma {:induction false} InnerTree(t: Object, cs: seq<string>)
    requires WfTree(t) && cs != [] && Entry(t, cs).Some? && Entry(t, cs).value.Tree?
    ensures WfTree(Entry(t, cs).value) && Entry(t, cs).value.entries != map[]
    decreases cs
  {
    if |cs| == 1 {
      assert cs[1..] == [];
    } else {
      InnerTree(t.entries[cs[0]], cs[1..]);
    }
  }

  lemma {:induction false} EntryBelow(t: Object, cs: seq<string>, ds: seq<string>)
    requires Entry(t, cs).Some?
    ensures Entry(t, cs + ds) == Entry(Entry(t, cs).value, ds)
    decreases cs
  {
    if cs == [] {
      assert cs + ds == ds;
    } else {
      assert (cs + ds)[1..] == cs[1..] + ds;
      EntryBelow(t.entries[cs[0]], cs[1..], ds);
    }
  }

  /** A directory is what has a file below it. */
  lemma DirectoryIff(t: Object, p: string)
    requires WfTree(t)
    ensures (Entry(t, Split(p)).Some? && Entry(t, Split(p)).value.Tree?) <==> exists q <- Flatten(t) :: DirPrefix(p, q)
  {
    var cs := Split(p);
    JoinSplit(p);
    if Entry(t, cs).Some? && Entry(t, cs).value.Tree? {
      InnerTree(t, cs);
      var ds := NonEmptyTreeHasBlob(Entry(t, cs).value);
      EntryBelow(t, cs, ds);
      EntryWf(t, cs + ds);
      SplitJoin(cs + ds);
      FlattenAt(t, Join(cs + ds));
      JoinAppend(cs, ds);
      assert DirPrefix(p, Join(cs + ds));
    }
    if q :| q in Flatten(t) && DirPrefix(p, q) {
      FlattenAt(t, q);
      DirPrefixSplit(p, q);
      EntryAlong(t, cs, Split(q));
    }
  }

  lemma EndsWithSlash(p: string)
    ensures var cs := Split(p);
            (|cs| > 1 && cs[|cs| - 1] == "") <==> (p != "" && p[|p| - 1] == '/')
    ensures p != "" && p[|p| - 1] == '/' ==> Split(p)[..|Split(p)| - 1] == Split(Trimmed(p))
  {
    if p != "" && p[|p| - 1] == '/' {
      SlashSplits(p, p[..|p| - 1]);
    } else if |Split(p)| > 1 && Split(p)[|Split(p)| - 1] == "" {
      SplitEndsEmpty(p, Split(p));
      assert false;
    }
  }

  lemma SlashSplits(p: string, init: string)
    requires p == init + "/"
    ensures Split(p) == Split(init) + [""]
  {
    assert p == init + "/" + "";
    SplitAppend(init, "");
  }

  lemma SplitEndsEmpty(p: string, cs: seq<string>)
    requires cs == Split(p) && |cs| > 1 && cs[|cs| - 1] == ""
    ensures p != "" && p[|p| - 1] == '/'
  {
    var init := cs[..|cs| - 1];
    assert cs == init + [""];
    JoinSplit(p);
    JoinAppend(init, [""]);
  }

  lemma LookedUp(t: Object, path: string)
    requires WfTree(t)
    ensures var e := EntryByPath(t, path);
            && ((e.Some? && e.value.Tree?) <==> IsDirectory(Flatten(t), path))
            && (e.Some? ==> e.value.Tree? || e.value.Blob?)
  {
    EndsWithSlash(path);
    ByTrimmed(t, path, Split(path), Split(Trimmed(path)), path != "" && path[|path| - 1] == '/');
    DirectoryIff(t, Trimmed(path));
    EntryWf(t, Split(Trimmed(path)));
    SameDirectories(Flatten(t), path);
  }

  lemma ByTrimmed(t: Object, path: string, cs: seq<string>, ds: seq<string>, slash: bool)
    requires cs == Split(path) && (slash <==> |cs| > 1 && cs[|cs| - 1] == "")
    requires ds == if slash then cs[..|cs| - 1] else cs
    ensures EntryByPath(t, path) == (if slash && Entry(t, ds).Some? && !Entry(t, ds).value.Tree? then None
                                     else Entry(t, ds))
  {
  }

  lemma SameDirectories(files: map<string, Object>, path: string)
    ensures IsDirectory(files, path) <==> exists q <- files :: DirPrefix(Trimmed(path), q)
  {
  }

  /** What a read comes to: the content of a file, working files before those of HEAD; an error for a
      path that is not valid or is a directory of HEAD; otherwise nothing. */
  lemma ReadOutcome(s: State, path: string)
    requires Valid(s)
    ensures var files, r := HeadFiles(s) + s.work, ReadFile(s, path);
            && (!ValidRepoPath(path) ==> r == Err("GIT-PATH-ERROR"))
            && (ValidRepoPath(path) && path in files ==> files[path].Blob? && r == Ok(Some(files[path].data)))
            && (ValidRepoPath(path) && path !in files ==>
                  r == if IsDirectory(HeadFiles(s), path) then Err("GIT-READ-ERROR") else Ok(None))
  {
    ReadsOverlay(s, path);
    HeadIsCommit(s);
    if HeadId(s).Some? {
      LookedUp(HeadId(s).value.tree, path);
    }
  }

  /** Writing makes a file read as the new content; every other path reads as before. */
  lemma WriteThenRead(s: State, path: string, data: Bytes)
    requires Valid(s)
    ensures var (s', r) := WriteFile(s, path, data);
            && (r.Ok? <==> ValidRepoPath(path))
            && (r.Err? ==> s' == s && r.error == "GIT-PATH-ERROR")
            && (r.Ok? ==>
                  && s'.refs == s.refs && path in s'.work && ReadFile(s', path) == Ok(Some(data))
                  && forall q | q != path :: ReadFile(s', q) == ReadFile(s, q) && (q in s'.work <==> q in s.work))
  {
    var s' := WriteFile(s, path, data).0;
    WriteFileKeeps(s, path, data);
    SameRefsSameHead(s, s');
    ReadOutcome(s', path);
    forall q | q != path ensures ReadFile(s', q) == ReadFile(s, q) {
      ReadOutcome(s', q);
      ReadOutcome(s, q);
    }
  }

  /** Deleting a file lets HEAD's content be read again, if it has any; every other path reads as
      before. */
  lemma DeleteThenRead(s: State, path: string)
    requires Valid(s)
    ensures var (s', r) := DeleteFile(s, path);
            && (r.Ok? <==> ValidRepoPath(path))
            && (r.Err? ==> s' == s && r.error == "GIT-PATH-ERROR")
            && (r.Ok? ==>
                  && s'.refs == s.refs && path !in s'.work
                  && (path in HeadFiles(s) ==> HeadFiles(s)[path].Blob?
                                               && ReadFile(s', path) == Ok(Some(HeadFiles(s)[path].data)))
                  && (path !in HeadFiles(s) ==> !Readable(s', path))
                  && forall q | q != path :: ReadFile(s', q) == ReadFile(s, q) && (q in s'.work <==> q in s.work))
  {
    var s' := DeleteFile(s, path).0;
    DeleteFileKeeps(s, path);
    SameRefsSameHead(s, s');
    ReadOutcome(s', path);
    forall q | q != path ensures ReadFile(s', q) == ReadFile(s, q) {
      ReadOutcome(s', q);
      ReadOutcome(s, q);
    }
  }

  // ---- What a commit stores ----

  /** A commit that succeeds adds the trees of its files and itself to the store. */
  lemma CommitStores(s: State, info: string)
    requires Valid(s) && CommitAll(s, info).1.Ok?
    ensures var (s', r) := CommitAll(s, info); s'.odb == s.odb + Subtrees(TreeOf(s.work)) + {r.value}
  {
    CommitLaw(s, info);
    WorkDirsShape(s, WorkDirs(s));
    StoredOk(WorkDirs(s));
    StoresTree(s, WorkDirs(s), info);
  }

  lemma StoresTree(s: State, d: Dir, info: string)
    requires d == WorkDirs(s) && NamesOk(d) && CommitAll(s, info).1.Ok?
    ensures var (s', r) := CommitAll(s, info); s'.odb == s.odb + Stored(d) + {r.value}
  {
    CommitsTree(s.(odb := s.odb + Stored(d)), Build(d), info);
  }

  lemma CommitsTree(s: State, tree: Object, info: string)
    ensures var (s', r) := CommitTree(s, tree, info); r.Ok? ==> s'.odb == s.odb + {r.value}
  {
  }

  /** One whose files have an unacceptable name fails, and adds the trees of the directories written
      before that name. */
  lemma CommitFails(s: State, info: string, u: Object)
    requires Valid(s) && s.work != map[] && !AllStorable(s.work)
    ensures var (s', r) := CommitAll(s, info);
            && r == Err("GIT-COMMIT-ERROR") && s'.refs == s.refs && s'.work == s.work
            && (u in s'.odb <==> u in s.odb || exists cs :: WrittenAt(WorkDirs(s), cs, u))
  {
    WorkDirsShape(s, WorkDirs(s));
    StoredExact(WorkDirs(s), u);
    FailsUnstorable(s, WorkDirs(s), info);
  }

  lemma FailsUnstorable(s: State, d: Dir, info: string)
    requires s.work != map[] && d == WorkDirs(s) && !NamesOk(d)
    ensures CommitAll(s, info) == (s.(odb := s.odb + Stored(d)), Err("GIT-COMMIT-ERROR"))
  {
  }

  // ---- References by their full names ----

  /** HEAD is on a branch when it is a symbolic reference to one that exists. A commit moves that
      branch, HEAD itself when it is detached, and the branch HEAD waits for when it is unborn. */
  lemma WhereHeadIs(s: State)
    requires Valid(s)
    ensures forall b: string :: CurrentBranch(s) == Some(b) <==>
              "HEAD" in s.refs && s.refs["HEAD"] == Symbolic("refs/heads/" + b) && "refs/heads/" + b in s.refs
    ensures "HEAD" in s.refs ==>
              HeadTarget(s) == if s.refs["HEAD"].Symbolic? then s.refs["HEAD"].target else "HEAD"
    ensures HeadId(s) == if HeadTarget(s) in s.refs then Some(s.refs[HeadTarget(s)].id) else None
  {
    HeadIsCommit(s);
    assert !IsBranchRef(HEAD) by { assert HEAD[0] != "refs/heads/"[0]; }
    forall b: string
      ensures CurrentBranch(s) == Some(b) <==>
              "HEAD" in s.refs && s.refs["HEAD"] == Symbolic("refs/heads/" + b) && "refs/heads/" + b in s.refs
    {
      OnBranchIff(s, b);
    }
  }

  lemma OnBranchIff(s: State, b: string)
    requires Valid(s)
    ensures CurrentBranch(s) == Some(b) <==>
              HEAD in s.refs && s.refs[HEAD] == Symbolic(Branch(b)) && Branch(b) in s.refs
  {
    HeadIsCommit(s);
    assert !IsBranchRef(HEAD) by { assert HEAD[0] != "refs/heads/"[0]; }
    if CurrentBranch(s) == Some(b) {
      var name := HeadRef(s).value.name;
      assert name == "refs/heads/" + name[|"refs/heads/"|..];
    }
    if HEAD in s.refs && s.refs[HEAD] == Symbolic(Branch(b)) && Branch(b) in s.refs {
      assert HeadRef(s).value.name == Branch(b) && Branch(b)[|"refs/heads/"|..] == b;
    }
  }

  /** In a directory, no name is a directory of the new one, nor the new one of them. */
  predicate NameFree(s: State, n: string) {
    n !in s.refs && (s.onDisk ==> forall m <- s.refs :: !(m + "/" <= n) && !(n + "/" <= m))
  }

  /** The object a branch or tag is put at: what the text refers to, HEAD without one. */
  function StartOf(s: State, from: Option<Rev>): Option<Object> {
    if from.None? || from.value.text == "" then HeadId(s) else RevParse(s, from.value)
  }

  /** A new branch starts at the commit the text refers to, or at HEAD, and is all that changes. */
  lemma BranchStarts(s: State, name: string, nameOk: bool, from: Option<Rev>)
    ensures var (s', r) := CreateBranch(s, name, nameOk, from);
            var n, start := "refs/heads/" + name, StartOf(s, from);
            && (r.Ok? <==> nameOk && start.Some? && start.value.Commit? && NameFree(s, n))
            && (r.Ok? ==> s' == s.(refs := s.refs[n := Direct(start.value)]))
            && (r.Err? ==> s' == s && r.error == "GIT-BRANCH-ERROR")
  {
  }

  /** Checking a new branch out gives the files of the commit it was started from. */
  lemma BranchThenCheckout(s: State, name: string, nameOk: bool, from: Option<Rev>)
    requires Valid(s) && CreateBranch(s, name, nameOk, from).1.Ok?
    requires BranchNameOnly(CreateBranch(s, name, nameOk, from).0, Rev(name, None, None))
    ensures var start := StartOf(s, from);
            var (s', r) := Checkout(CreateBranch(s, name, nameOk, from).0, Rev(name, None, None));
            && start.Some? && start.value.Commit? && r.Ok? && HeadId(s') == start && InSync(s')
            && s'.work == Flatten(start.value.tree)
  {
    BranchStarts(s, name, nameOk, from);
    CreateBranchKeeps(s, name, nameOk, from);
    CheckoutBranch(CreateBranch(s, name, nameOk, from).0, Rev(name, None, None));
  }

  /** Creating a branch and deleting it again changes nothing. */
  lemma BranchThenDelete(s: State, name: string, nameOk: bool, from: Option<Rev>)
    requires CreateBranch(s, name, nameOk, from).1.Ok?
    ensures var (s', r) := DeleteBranch(CreateBranch(s, name, nameOk, from).0, name);
            if HeadTarget(s) == "refs/heads/" + name then r == Err("GIT-BRANCH-ERROR") else s' == s && r.Ok?
  {
    BranchStarts(s, name, nameOk, from);
    var s1 := CreateBranch(s, name, nameOk, from).0;
    var n := "refs/heads/" + name;
    assert n != HEAD by { assert n[0] != HEAD[0]; }
    assert s1.refs - {n} == s.refs;
  }

  /** A new tag is put at the object itself, or, with a message, at a tag object that names it. */
  lemma TagStarts(s: State, name: string, nameOk: bool, note: Option<string>, from: Option<Rev>)
    ensures var (s', r) := CreateTag(s, name, nameOk, note, from);
            var n, start := "refs/tags/" + name, StartOf(s, from);
            && (r.Ok? <==> nameOk && start.Some? && NameFree(s, n))
            && (r.Ok? ==> var o := if note.None? || note.value == "" then start.value
                                   else Object.Tag(start.value, note.value);
                          s' == s.(odb := s.odb + {o}, refs := s.refs[n := Direct(o)]))
            && (r.Err? ==> s'.refs == s.refs && s'.work == s.work && r.error == "GIT-TAG-ERROR")
  {
  }

  // ---- What a text refers to ----

  /** An id spelled in full comes first, then the references in this order, then an abbreviated id. */
  lemma RefersTo(s: State, rev: Rev, names: seq<string>)
    requires names == if rev.text == "" then ["HEAD"]
                      else [rev.text, "refs/" + rev.text, "refs/tags/" + rev.text, "refs/heads/" + rev.text,
                            "refs/remotes/" + rev.text, "refs/remotes/" + rev.text + "/HEAD"]
    ensures rev.full.Some? && rev.full.value in s.odb ==> RevParse(s, rev) == rev.full
    ensures !(rev.full.Some? && rev.full.value in s.odb) ==>
              && (forall k: nat | k < |names| :: (forall j | 0 <= j < k :: Resolve(s.refs, names[j], 5) == None)
                                                 && Resolve(s.refs, names[k], 5).Some? ==>
                    RevParse(s, rev) == Some(Resolve(s.refs, names[k], 5).value.id))
              && ((forall j | 0 <= j < |names| :: Resolve(s.refs, names[j], 5) == None) ==>
                    RevParse(s, rev) == if rev.abbrev.Some? && rev.abbrev.value in s.odb then rev.abbrev else None)
  {
    forall k: nat | k < |names| && (forall j | 0 <= j < k :: Resolve(s.refs, names[j], 5) == None)
                    && Resolve(s.refs, names[k], 5).Some?
      ensures FirstResolved(s.refs, names) == Some(Resolve(s.refs, names[k], 5).value.id)
    {
      FirstOfNames(s.refs, names, k);
    }
    if forall j | 0 <= j < |names| :: Resolve(s.refs, names[j], 5) == None {
      NoneOfNames(s.refs, names);
    }
    assert DwimNames(rev.text) == names;
  }

  lemma {:induction false} FirstOfNames(refs: map<string, Ref>, names: seq<string>, k: nat)
    requires k < |names| && (forall j | 0 <= j < k :: Resolve(refs, names[j], 5) == None)
    requires Resolve(refs, names[k], 5).Some?
    ensures FirstResolved(refs, names) == Some(Resolve(refs, names[k], 5).value.id)
  {
    if k > 0 { FirstOfNames(refs, names[1..], k - 1); }
  }

  lemma {:induction false} NoneOfNames(refs: map<string, Ref>, names: seq<string>)
    requires forall j | 0 <= j < |names| :: Resolve(refs, names[j], 5) == None
    ensures FirstResolved(refs, names) == None
  {
    if names != [] { NoneOfNames(refs, names[1..]); }
  }

  /** A tag, of a tag and so on, of the object. */
  predicate LeadsTo(o: Object, c: Object) {
    o == c || (o.Tag? && LeadsTo(o.target, c))
  }

  /** Peeling finds the commit at the end of any number of tags. */
  lemma {:induction false} PeelsIff(o: Object, c: Object)
    ensures Peel(o) == Some(c) <==> c.Commit? && LeadsTo(o, c)
  {
    if o.Tag? {
      PeelsIff(o.target, c);
    }
  }

  /** Checking a text out succeeds just when it refers to a commit, straight or through tags; that
      commit's files become the working files, and HEAD goes on the branch of that name or, without
      one, to the commit itself. */
  lemma CheckoutEffect(s: State, rev: Rev, c: Object)
    requires Valid(s)
    ensures var (s', r) := Checkout(s, rev);
            && (RevParse(s, rev).Some? && LeadsTo(RevParse(s, rev).value, c) && c.Commit? ==>
                  var n := "refs/heads/" + rev.text;
                  && r.Ok? && s'.odb == s.odb && s'.work == Flatten(c.tree)
                  && s'.refs == s.refs["HEAD" := if n in s.refs then Symbolic(n) else Direct(c)])
            && (r.Err? ==> s' == s && r.error == "GIT-CHECKOUT-ERROR")
  {
    if RevParse(s, rev).Some? { PeelsIff(RevParse(s, rev).value, c); }
  }

  // ---- Steps of a run ----

  /** What can be seen of a step in the state it leads to. */
  lemma StepShows(w: World, a: Action, w': World)
    requires ValidWorld(w) && Step(w, a, w')
    ensures match a
            case Write(path, data) => ValidRepoPath(path) ==> ReadFile(w'.repo, path) == Ok(Some(data))
            case Delete(path) => ValidRepoPath(path) ==> path !in w'.repo.work
            case CommitWork(info) =>
              var r := CommitAll(w.repo, info).1; r.Ok? ==> HeadId(w'.repo) == Some(r.value)
            case RemoveBranch(name) => DeleteBranch(w.repo, name).1.Ok? ==> "refs/heads/" + name !in w'.repo.refs
            case NewBranch(name, ok, from) =>
              CreateBranch(w.repo, name, ok, from).1.Ok? ==> "refs/heads/" + name in w'.repo.refs
            case NewTag(name, ok, note, from) =>
              && w'.repo.refs == CreateTag(w.repo, name, ok, note, from).0.refs
              && (CreateTag(w.repo, name, ok, note, from).1.Ok? ==> "refs/tags/" + name in w'.repo.refs)
            case SwitchTo(rev) =>
              var c := CheckedOut(w.repo, rev); c.Some? ==> c.value.Commit? && w'.repo.work == Flatten(c.value.tree)
            case Fetch => w'.repo.work == w.repo.work && w'.waiting == w.waiting
            case StartMerge(m, rev, opts, merged) =>
              var r := BeginMerge(w.repo, rev, opts, merged).1;
              && (m in w'.waiting <==> r.Ok? && r.value.AwaitAnswers?)
              && (Committed(r) ==> HeadId(w'.repo) == r.value.result.commitId)
            case EndMerge(m, answers) =>
              && m in w.waiting && m !in w'.waiting && |answers| == |w.waiting[m].index.conflicts|
              && var r := FinishMerge(w.repo, w.waiting[m], answers).1;
                 FinishCommitted(r) ==> HeadId(w'.repo) == r.value.commitId
            case AbandonMerge(m) => m !in w'.waiting && w'.repo == w.repo
  {
    match a {
      case Write(path, data) => WriteThenRead(w.repo, path, data);
      case CommitWork(info) => CommitLaw(w.repo, info);
      case SwitchTo(rev) => CheckoutLaw(w.repo, rev);
      case StartMerge(m, rev, opts, merged) => BeginMergeLaw(w.repo, rev, opts, merged);
      case EndMerge(m, answers) => FinishMergeLaw(w.repo, w.waiting[m], answers);
      case _ =>
    }
  }

  // ---- Ancestry ----

  /** From a commit down to another, each the parent of the one before. */
  predicate IsChain(chain: seq<Object>, c: Object, a: Object) {
    && |chain| >= 1 && chain[0] == c && chain[|chain| - 1] == a
    && forall i | 0 <= i < |chain| - 1 :: chain[i].Commit? && chain[i + 1] in chain[i].parents
  }

  lemma {:induction false} AncestorByChain(a: Object, c: Object) returns (chain: seq<Object>)
    requires IsAncestor(a, c)
    ensures IsChain(chain, c, a)
    decreases c
  {
    if a == c {
      chain := [c];
    } else {
      var i :| 0 <= i < |c.parents| && IsAncestor(a, c.parents[i]);
      var rest := AncestorByChain(a, c.parents[i]);
      chain := [c] + rest;
    }
  }

  lemma {:induction false} ChainIsAncestor(chain: seq<Object>, c: Object, a: Object)
    requires IsChain(chain, c, a)
    ensures IsAncestor(a, c)
    decreases |chain|
  {
    if |chain| > 1 {
      var i :| 0 <= i < |c.parents| && c.parents[i] == chain[1];
      assert forall k | 0 <= k < |chain[1..]| :: chain[1..][k] == chain[k + 1];
      ChainIsAncestor(chain[1..], chain[1], a);
      assert IsAncestor(a, c.parents[i]);
    }
  }

  /** One commit is an ancestor of another just when a chain of parents leads to it. */
  lemma AncestorIff(a: Object, c: Object)
    ensures IsAncestor(a, c) <==> exists chain :: IsChain(chain, c, a)
  {
    if IsAncestor(a, c) {
      var chain := AncestorByChain(a, c);
    }
    if chain :| IsChain(chain, c, a) {
      ChainIsAncestor(chain, c, a);
    }
  }

  // ---- Entry names ----

  /** What may follow a protected name: something that makes it another name on Windows, too. */
  predicate MakesOther(tail: string) {
    && tail != "" && tail[0] != '\\' && tail[0] != ':'
    && exists i | 0 <= i < |tail| :: tail[i] != ' ' && tail[i] != '.'
  }

  /** Names that begin with neither protected name are refused only when they are empty, have a
      slash or are dots; behind a protected name, the rest must make it another one. */
  lemma EntryNames(n: string, tail: string)
    ensures |n| >= 1 && n[0] != '.' && n[0] != 'g' && n[0] != 'G' ==> (EntryNameOk(n) <==> '/' !in n)
    ensures !EntryNameOk("") && !EntryNameOk(".") && !EntryNameOk("..") && !EntryNameOk(".GIT") && !EntryNameOk("GIT~1")
    ensures EntryNameOk(".git" + tail) <==> '/' !in tail && MakesOther(tail)
    ensures EntryNameOk("git~1" + tail) <==> '/' !in tail && MakesOther(tail)
  {
    ProtectedName(".git", tail, "git~1");
    ProtectedName("git~1", tail, ".git");
    assert ".GIT"[0] == '.' && "GIT~1"[0] == 'G';
  }

  lemma ProtectedName(r: string, tail: string, other: string)
    requires (r == ".git" && other == "git~1") || (r == "git~1" && other == ".git")
    ensures EntryNameOk(r + tail) <==> '/' !in tail && MakesOther(tail)
  {
    var n, k := r + tail, |r|;
    assert Lower(n[0]) != other[0];
    assert forall i | 0 <= i < k :: n[i] == r[i] && Lower(n[i]) == r[i] && n[i] != '/';
    assert forall i | 0 <= i < |tail| :: n[k + i] == tail[i];
    assert forall i | k <= i < |n| :: n[i] == tail[i - k];
    assert '/' !in r;
    TailSlash(r, tail);
  }

  lemma TailSlash(r: string, tail: string)
    requires '/' !in r
    ensures '/' in r + tail <==> '/' in tail
  {
  }
}
