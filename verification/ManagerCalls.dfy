/** What the calls of the configuration manager do to its repository and to the HEAD it
    remembers, and that the two stay in step. */
module ManagerCalls {
  import opened Text
  import opened Paths
  import opened Objects
  import opened TreeBuilding
  import opened RepositoryState
  import opened Operations
  import opened OperationLaws
  import opened Runs

  /** The repository and the HEAD the manager last saw. */
  datatype Managed = Managed(repo: State, lastHead: Option<Object>)

  ghost predicate InStep(m: Managed) { m.lastHead == HeadId(m.repo) }

  /** A failed push of the usual kind is ignored; any other failure is raised again. */
  function PushResult(push: Result<()>, oid: Object): Result<Object> {
    if push.Err? && push.error != "GIT-PUSH-ERROR" then Err(push.error) else Ok(oid)
  }

  // ---- Sync ----

  datatype SyncReport = SyncReport(changes: bool, oldHead: Option<Object>, newHead: Option<Object>,
      merged: Option<MergeResult>)

  /** HEAD is born and on a branch. */
  predicate CanPull(s: State) {
    HeadId(s).Some? && CurrentBranch(s).Some?
  }

  function Synced(m: Managed, s': State, r: Result<Option<MergeResult>>): (Managed, Result<SyncReport>) {
    match r
    case Err(e) => (m.(repo := s'), Err(e))
    case Ok(merged) =>
      (Managed(s', HeadId(s')), Ok(SyncReport(m.lastHead != HeadId(s'), m.lastHead, HeadId(s'), merged)))
  }

  function Sync(m: Managed, e: Remote): (Managed, Result<SyncReport>) {
    if CanPull(m.repo) then
      var (s', r) := Pull(m.repo, e);
      Synced(m, s', match r case Ok(x) => Ok(Some(x)) case Err(c) => Err(c))
    else
      Synced(m, e.fetched, if e.fetchOk then Ok(None) else Err("GIT-FETCH-ERROR"))
  }

  /** A sync that returns remembers HEAD, and reports a change just when the HEAD it finds at
      the end is not the one remembered at its start. On a branch it is a pull and hands on its
      answer; without one it is a fetch, which moves neither HEAD nor a branch. */
  lemma SyncLaw(m: Managed, e: Remote)
    requires Valid(m.repo) && RemoteOk(m.repo, e)
    ensures var (m', r) := Sync(m, e);
            && Lasts(m.repo, m'.repo)
            && (r.Ok? ==> && InStep(m') && (r.value.changes <==> m.lastHead != HeadId(m'.repo))
                          && r.value.oldHead == m.lastHead && r.value.newHead == HeadId(m'.repo))
            && (r.Err? ==> m'.lastHead == m.lastHead)
            && (CurrentBranch(m.repo).Some? ==> PullsFor(m, e, m', r))
            && (CurrentBranch(m.repo).None? ==> OnlyFetches(m, e, m', r))
  {
    PullLasts(m.repo, e);
    FetchesKeeps(m.repo, e.fetched);
  }

  /** The sync was a pull. */
  predicate PullsFor(m: Managed, e: Remote, m': Managed, r: Result<SyncReport>) {
    && m'.repo == Pull(m.repo, e).0
    && match Pull(m.repo, e).1
       case Ok(answer) => r.Ok? && r.value.merged == Some(answer)
       case Err(code) => r == Err(code)
  }

  /** The sync was a fetch. */
  ghost predicate OnlyFetches(m: Managed, e: Remote, m': Managed, r: Result<SyncReport>) {
    && m'.repo == e.fetched && HeadId(m'.repo) == HeadId(m.repo)
    && (forall n | "refs/heads/" <= n ::
          (n in m'.repo.refs <==> n in m.repo.refs) && (n in m.repo.refs ==> m'.repo.refs[n] == m.repo.refs[n]))
    && if e.fetchOk then r.Ok? && r.value.merged == None else r == Err("GIT-FETCH-ERROR")
  }

  // ---- Publish ----

  /** A commit, then a push. */
  ghost predicate Publishes(m: Managed, info: string, pushed: State, push: Result<()>, r: Result<Object>, m': Managed) {
    match CommitAll(m.repo, info).1
    case Err(e) => r == Err(e) && m' == m.(repo := CommitAll(m.repo, info).0)
    case Ok(oid) => m' == Managed(pushed, Some(oid)) && r == PushResult(push, oid)
  }

  /** What a caller is told of a push after a commit. */
  function PushAnswer(push: Result<()>, oid: Object): Result<Object> {
    match push
    case Ok(_) => Ok(oid)
    case Err("GIT-PUSH-ERROR") => Ok(oid)
    case Err(code) => Err(code)
  }

  /** The push may move what a push may move. */
  ghost predicate PushOk(s: State, committed: Result<Object>, pushed: State) {
    committed.Ok? ==> Fetches(s, pushed)
  }

  /** Also when the push then fails, the manager remembers the commit, which is HEAD. A push that
      fails in the usual way is not noticed; any other failure is the answer. */
  lemma PublishLaw(m: Managed, info: string, pushed: State, push: Result<()>, r: Result<Object>, m': Managed)
    requires Valid(m.repo) && Publishes(m, info, pushed, push, r, m')
    requires PushOk(CommitAll(m.repo, info).0, CommitAll(m.repo, info).1, pushed)
    ensures Advances(m.repo, m'.repo)
    ensures CommitAll(m.repo, info).1.Ok? ==> InStep(m') && m'.lastHead == Some(CommitAll(m.repo, info).1.value)
    ensures CommitAll(m.repo, info).1.Ok? ==>
              m'.repo == pushed && r == PushAnswer(push, CommitAll(m.repo, info).1.value)
    ensures CommitAll(m.repo, info).1.Err? ==> r == CommitAll(m.repo, info).1 && m'.lastHead == m.lastHead
  {
    var (s', c) := CommitAll(m.repo, info);
    CommitAdvancesTo(m.repo, info);
    if c.Ok? {
      FetchesKeeps(s', pushed);
      AdvancesTransitive(m.repo, s', pushed);
    }
  }

  lemma CommitAdvancesTo(s: State, info: string)
    requires Valid(s)
    ensures var (s', r) := CommitAll(s, info); Advances(s, s') && (r.Ok? ==> HeadId(s') == Some(r.value))
  {
    CommitLaw(s, info);
    CommitAdvances(s, info);
  }

  // ---- Proposals ----

  /** A proposal: the branch to make, how its name and that of the current branch read as
      commits, the message, and what the push comes to. */
  datatype Proposal = Proposal(branch: Rev, nameOk: bool, base: Rev, info: string, pushed: State, push: Result<()>)

  /** The pending changes that are carried over: empty files and deletions are not. */
  function Saved(s: State): map<string, Bytes> {
    map p | p in s.work && s.work[p].Blob? && s.work[p].data != [] :: s.work[p].data
  }

  function SavedBlobs(saved: map<string, Bytes>): map<string, Object> {
    map p | p in saved :: Blob(saved[p])
  }

  /** The new branch, checked out. */
  function OpenBranch(s: State, p: Proposal): (State, Result<()>) {
    var (s1, created) := CreateBranch(s, p.branch.text, p.nameOk, None);
    if created.Err? then (s1, created) else Checkout(s1, p.branch)
  }

  /** Writing the saved files again, in order. */
  function Reapply(s: State, ks: seq<string>, saved: map<string, Bytes>): State
    requires forall k <- ks :: k in saved
  {
    if ks == [] then s
    else WriteFile(Reapply(s, ks[..|ks| - 1], saved), ks[|ks| - 1], saved[ks[|ks| - 1]]).0
  }

  lemma ReapplyNext(s: State, ks: seq<string>, i: nat, saved: map<string, Bytes>)
    requires i < |ks| && forall k <- ks :: k in saved
    ensures Reapply(s, ks[..i + 1], saved) == WriteFile(Reapply(s, ks[..i], saved), ks[i], saved[ks[i]]).0
  {
    assert ks[..i + 1][..i] == ks[..i];
  }

  function Reapplied(s: State, saved: map<string, Bytes>): State {
    Reapply(s, SortedKeys(saved.Keys), saved)
  }

  /** The commit, and the way back to the branch the proposal started from. */
  function CloseBranch(s: State, p: Proposal, back: bool): (State, Result<Object>) {
    var (s1, c) := CommitAll(s, p.info);
    if c.Err? || !back then (s1, c)
    else
      var (s2, r) := Checkout(s1, p.base);
      (s2, match r case Ok(_) => c case Err(e) => Err(e))
  }

  function ProposeLocally(s: State, p: Proposal): (State, Result<Object>) {
    var (s1, begun) := OpenBranch(s, p);
    match begun
    case Err(e) => (s1, Err(e))
    case Ok(_) => CloseBranch(Reapplied(s1, Saved(s)), p, CurrentBranch(s).Some?)
  }

  ghost predicate Proposes(m: Managed, p: Proposal, r: Result<Object>, m': Managed) {
    var (s', c) := ProposeLocally(m.repo, p);
    match c
    case Err(e) => r == Err(e) && m' == m.(repo := s')
    case Ok(oid) => m' == Managed(p.pushed, HeadId(s')) && r == PushResult(p.push, oid)
  }

  ghost predicate ProposalOk(s: State, p: Proposal) {
    && (CurrentBranch(s).Some? ==> p.base.text == CurrentBranch(s).value)
    && PushOk(ProposeLocally(s, p).0, ProposeLocally(s, p).1, p.pushed)
  }

  lemma OpenBranchAdvances(s: State, p: Proposal)
    requires Valid(s)
    ensures Advances(s, OpenBranch(s, p).0)
  {
    CreateBranchKeeps(s, p.branch.text, p.nameOk, None);
    var s1 := CreateBranch(s, p.branch.text, p.nameOk, None).0;
    CheckoutAdvances(s1, p.branch);
    AdvancesTransitive(s, s1, Checkout(s1, p.branch).0);
  }

  lemma {:induction false} ReapplyAdvances(s: State, ks: seq<string>, saved: map<string, Bytes>)
    requires Valid(s) && forall k <- ks :: k in saved
    ensures Advances(s, Reapply(s, ks, saved))
  {
    if ks == [] {
      DeleteFileKeeps(s, "");
    } else {
      var before := Reapply(s, ks[..|ks| - 1], saved);
      ReapplyAdvances(s, ks[..|ks| - 1], saved);
      WriteFileKeeps(before, ks[|ks| - 1], saved[ks[|ks| - 1]]);
      SameRefsSameHead(before, Reapply(s, ks, saved));
      AdvancesTransitive(s, before, Reapply(s, ks, saved));
    }
  }

  lemma CloseBranchAdvances(s: State, p: Proposal, back: bool)
    requires Valid(s)
    ensures Advances(s, CloseBranch(s, p, back).0)
  {
    CommitAdvances(s, p.info);
    var s1 := CommitAll(s, p.info).0;
    CheckoutAdvances(s1, p.base);
    AdvancesTransitive(s, s1, Checkout(s1, p.base).0);
  }

  lemma ProposeAdvances(s: State, p: Proposal)
    requires Valid(s)
    ensures Advances(s, ProposeLocally(s, p).0)
  {
    OpenBranchAdvances(s, p);
    RestAdvances(s, OpenBranch(s, p).0, Saved(s), p, CurrentBranch(s).Some?);
  }

  lemma RestAdvances(s: State, s1: State, saved: map<string, Bytes>, p: Proposal, back: bool)
    requires Advances(s, s1)
    ensures Advances(s, CloseBranch(Reapplied(s1, saved), p, back).0)
  {
    var s2 := Reapplied(s1, saved);
    ReapplyAdvances(s1, SortedKeys(saved.Keys), saved);
    CloseBranchAdvances(s2, p, back);
    AdvancesTransitive(s, s1, s2);
    AdvancesTransitive(s, s2, CloseBranch(s2, p, back).0);
  }

  lemma ProposeLaw(m: Managed, p: Proposal, r: Result<Object>, m': Managed)
    requires Valid(m.repo) && ProposalOk(m.repo, p) && Proposes(m, p, r, m')
    ensures Advances(m.repo, m'.repo) && (r.Ok? ==> InStep(m'))
    ensures ProposeLocally(m.repo, p).1.Ok? ==>
              m'.repo == p.pushed && InStep(m') && r == PushAnswer(p.push, ProposeLocally(m.repo, p).1.value)
    ensures ProposeLocally(m.repo, p).1.Err? ==>
              m'.repo == ProposeLocally(m.repo, p).0 && m'.lastHead == m.lastHead && r == ProposeLocally(m.repo, p).1
  {
    ProposeAdvances(m.repo, p);
    var (s', c) := ProposeLocally(m.repo, p);
    if c.Ok? {
      FetchesKeeps(s', p.pushed);
      AdvancesTransitive(m.repo, s', p.pushed);
    }
  }

  // ---- Proposing and applying ----

  /** The name is not that of any other reference, nor the spelling of an object id. */
  predicate PlainName(s: State, rev: Rev) {
    rev.full.None? && BranchNameOnly(s, rev)
  }

  /** A new branch does not hide the branch of another name. */
  predicate NotHiddenBy(name: string, branch: string) {
    name != Branch(branch) && "refs/" + name != Branch(branch)
  }

  lemma StillPlain(s: State, rev: Rev, s': State, branch: string)
    requires PlainName(s, rev) && HEAD in s.refs && s'.refs.Keys == s.refs.Keys + {Branch(branch)}
    requires NotHiddenBy(rev.text, branch)
    ensures PlainName(s', rev)
  {
    assert TagRef(rev.text) != Branch(branch) by { assert TagRef(rev.text)[5] != Branch(branch)[5]; }
  }

  lemma NameNotHiddenByItself(name: string)
    ensures NotHiddenBy(name, name)
  {
    assert |Branch(name)| > |"refs/" + name|;
  }

  lemma OnCurrentBranch(s: State)
    requires Valid(s) && CurrentBranch(s).Some?
    ensures OnBranch(s, CurrentBranch(s).value) && Branch(CurrentBranch(s).value) in s.refs
    ensures HeadId(s) == Some(s.refs[Branch(CurrentBranch(s).value)].id)
    ensures HeadTarget(s) == Branch(CurrentBranch(s).value) && HeadId(s).value in s.odb
  {
    HeadIsCommit(s);
    var name := HeadRef(s).value.name;
    assert name == "refs/heads/" + name[|"refs/heads/"|..];
    assert !IsBranchRef(HEAD) by { assert HEAD[0] != "refs/heads/"[0]; }
  }

  /** No branch has this name, and one can be made. */
  predicate BranchFree(s: State, name: string) {
    Branch(name) !in s.refs && RefFree(s, Branch(name))
  }

  /** The branch of a proposal can be made at HEAD. */
  predicate CanBranch(s: State, p: Proposal) {
    HeadId(s).Some? && p.nameOk && BranchFree(s, p.branch.text)
  }

  /** What the name of the new branch reads as once the branch is there. */
  function ReadAsBranch(s: State, p: Proposal): Option<Object> {
    CheckedOut(CreateBranch(s, p.branch.text, p.nameOk, None).0, p.branch)
  }

  /** After opening, HEAD is on the new branch, at the old HEAD, with the files of the commit its
      name reads as. */
  lemma OpenBranchLaw(s: State, p: Proposal)
    requires Valid(s)
    ensures var (s1, r) := OpenBranch(s, p);
            && (r.Ok? <==> CanBranch(s, p) && ReadAsBranch(s, p).Some?)
            && (r.Ok? ==>
                  && HeadId(s1) == HeadId(s) && OnBranch(s1, p.branch.text)
                  && s1.work == Flatten(ReadAsBranch(s, p).value.tree) && AllStorable(s1.work)
                  && s1.refs == WithProposal(s, p, HeadId(s).value, p.branch.text))
  {
    HeadIsCommit(s);
    CreateBranchKeeps(s, p.branch.text, p.nameOk, None);
    var (s1, created) := CreateBranch(s, p.branch.text, p.nameOk, None);
    if created.Ok? {
      CheckoutLaw(s1, p.branch);
      RevParseInStore(s1, p.branch);
      if ReadAsBranch(s, p).Some? {
        PeelInStore(s1, RevParse(s1, p.branch).value);
        FlattenStorable(ReadAsBranch(s, p).value.tree);
      }
    }
  }

  /** The references with the proposal branch at a commit and HEAD on a branch. */
  function WithProposal(s: State, p: Proposal, c: Object, on: string): map<string, Ref> {
    s.refs[Branch(p.branch.text) := Direct(c)][HEAD := Symbolic(Branch(on))]
  }

  /** A working map with some of the saved contents laid over it. */
  function Over(work: map<string, Object>, ks: set<string>, saved: map<string, Bytes>): map<string, Object> {
    work + map k | k in ks && k in saved :: Blob(saved[k])
  }

  lemma OverNext(work: map<string, Object>, ks: set<string>, saved: map<string, Bytes>, k: string)
    requires k in saved
    ensures Over(work, ks, saved)[k := Blob(saved[k])] == Over(work, ks + {k}, saved)
  {
  }

  lemma OverEnds(work: map<string, Object>, saved: map<string, Bytes>)
    ensures Over(work, {}, saved) == work && Over(work, saved.Keys, saved) == work + SavedBlobs(saved)
  {
  }

  /** Writing the saved files puts their contents over the working map. */
  lemma {:induction false} ReapplyMeaning(s: State, ks: seq<string>, saved: map<string, Bytes>)
    requires forall k <- ks :: k in saved && ValidRepoPath(k)
    ensures Reapply(s, ks, saved).refs == s.refs && Reapply(s, ks, saved).work == Over(s.work, ToSet(ks), saved)
  {
    if ks == [] {
      OverEnds(s.work, saved);
    } else {
      ReapplyMeaning(s, ks[..|ks| - 1], saved);
      ToSetSnoc(ks);
      OverNext(s.work, ToSet(ks[..|ks| - 1]), saved, ks[|ks| - 1]);
    }
  }

  lemma ReappliedMeaning(s: State, saved: map<string, Bytes>, ks: seq<string>)
    requires ks == SortedKeys(saved.Keys) && forall k <- saved :: ValidRepoPath(k)
    ensures Reapply(s, ks, saved).refs == s.refs && Reapply(s, ks, saved).work == s.work + SavedBlobs(saved)
  {
    SortedKeysSet(saved.Keys);
    ReapplyMeaning(s, ks, saved);
    OverEnds(s.work, saved);
  }

  /** The commit on the proposal branch and the return to the base branch, whose tip it leaves
      alone. */
  lemma CloseBranchLaw(s: State, p: Proposal, base: Object)
    requires Valid(s) && HeadId(s).Some? && OnBranch(s, p.branch.text)
    requires p.base.text != p.branch.text && Branch(p.base.text) in s.refs
             && s.refs[Branch(p.base.text)] == Direct(base) && base.Commit?
    ensures var (s', r) := CloseBranch(s, p, true);
            var b := CheckedOut(CommitAll(s, p.info).0, p.base);
            && (r.Ok? <==> s.work != map[] && AllStorable(s.work) && b.Some?)
            && (r.Ok? ==> CommitOf(r.value, HeadId(s).value, s.work, p.info)
                          && Returned(s.refs[Branch(p.branch.text) := Direct(r.value)], p, base, b, s'))
  {
    CommitsOnBranch(s, p.branch.text, p.info);
    CommitKeepsBase(s, p, base);
    var (s1, c) := CommitAll(s, p.info);
    if c.Ok? {
      BackToBase(s1, p, base);
    }
    CloseIs(s, p, s1, c, Checkout(s1, p.base).0, Checkout(s1, p.base).1);
  }

  lemma CloseIs(s: State, p: Proposal, s1: State, c: Result<Object>, s2: State, r: Result<()>)
    requires (s1, c) == CommitAll(s, p.info) && (s2, r) == Checkout(s1, p.base)
    ensures CloseBranch(s, p, true) == if c.Err? then (s1, c) else (s2, if r.Ok? then c else Err(r.error))
  {
  }

  /** HEAD is back on the base branch, with the files of the commit its name reads as. */
  predicate Returned(refs: map<string, Ref>, p: Proposal, base: Object, read: Option<Object>, s': State) {
    && base.Commit? && read.Some? && read.value.Commit?
    && s'.refs == refs[HEAD := Symbolic(Branch(p.base.text))] && HeadId(s') == Some(base)
    && s'.work == Flatten(read.value.tree) && (InSync(s') <==> base.tree == read.value.tree)
  }

  lemma CommitKeepsBase(s: State, p: Proposal, base: Object)
    requires Valid(s) && HeadId(s).Some? && OnBranch(s, p.branch.text)
    requires p.base.text != p.branch.text && Branch(p.base.text) in s.refs
             && s.refs[Branch(p.base.text)] == Direct(base)
    ensures var s1 := CommitAll(s, p.info).0;
            Branch(p.base.text) in s1.refs && s1.refs[Branch(p.base.text)] == Direct(base)
  {
    CommitLaw(s, p.info);
    CommitsOnBranch(s, p.branch.text, p.info);
    BranchInjective(s, p.branch.text);
  }

  lemma CommitsOnBranch(s: State, name: string, info: string)
    requires Valid(s) && HeadId(s).Some? && OnBranch(s, name)
    ensures var (s', r) := CommitAll(s, info);
            && Valid(s') && (r.Ok? <==> s.work != map[] && AllStorable(s.work))
            && (r.Ok? ==> CommitOf(r.value, HeadId(s).value, s.work, info)
                          && s'.refs == s.refs[Branch(name) := Direct(r.value)])
  {
    CommitLaw(s, info);
    HeadIsCommit(s);
  }

  lemma BackToBase(s: State, p: Proposal, base: Object)
    requires Valid(s) && Branch(p.base.text) in s.refs && s.refs[Branch(p.base.text)] == Direct(base) && base.Commit?
    ensures var (s', r) := Checkout(s, p.base);
            && (r.Ok? <==> CheckedOut(s, p.base).Some?)
            && (r.Ok? ==> Returned(s.refs, p, base, CheckedOut(s, p.base), s'))
  {
    CheckoutLaw(s, p.base);
  }

  /** The commit a proposal makes: on top of HEAD, with these files as far as a tree can hold them, and
      with this message. */
  predicate CommitOf(c: Object, head: Object, files: map<string, Object>, info: string) {
    c.Commit? && c.parents == [head] && Flatten(c.tree) == Prune(files) && c.info == info
  }

  /** The files of the commit the branch's name reads as, with the saved contents over them. */
  function ProposedFiles(s: State, p: Proposal): map<string, Object>
    requires ReadAsBranch(s, p).Some? && ReadAsBranch(s, p).value.Commit?
  {
    Flatten(ReadAsBranch(s, p).value.tree) + SavedBlobs(Saved(s))
  }

  /** The state the proposal commits. */
  function Filled(s: State, p: Proposal): State {
    Reapplied(OpenBranch(s, p).0, Saved(s))
  }

  /** What the name of the current branch reads as once the proposal is committed. */
  function ReadAsBase(s: State, p: Proposal): Option<Object> {
    CheckedOut(CommitAll(Filled(s, p), p.info).0, p.base)
  }

  /** The branch can be made, its name reads as a commit, and there are files, all storable. */
  predicate CanPropose(s: State, p: Proposal) {
    && CanBranch(s, p) && ReadAsBranch(s, p).Some? && ReadAsBranch(s, p).value.Commit?
    && ProposedFiles(s, p) != map[] && AllStorable(Saved(s))
  }

  /** HEAD is back on the branch it was on, at its old tip, with the files of the commit that
      branch's name reads as. */
  predicate BackOn(s: State, p: Proposal, base: Object, c: Object, read: Option<Object>, s': State) {
    Returned(s.refs[Branch(p.branch.text) := Direct(c)], p, base, read, s')
  }

  /** Without a branch to go back to, HEAD stays on the proposal. */
  predicate StaysOn(s: State, p: Proposal, c: Object, files: map<string, Object>, s': State) {
    && s'.refs == WithProposal(s, p, c, p.branch.text) && HeadId(s') == Some(c)
    && s'.work == files && (InSync(s') <==> PrefixFree(files))
  }

  lemma FilledLaw(s: State, p: Proposal)
    requires Valid(s) && OpenBranch(s, p).1.Ok?
    ensures CanBranch(s, p) && ReadAsBranch(s, p).Some? && ReadAsBranch(s, p).value.Commit?
    ensures var s2 := Filled(s, p);
            && Valid(s2) && HeadId(s2) == HeadId(s) && OnBranch(s2, p.branch.text)
            && s2.refs == WithProposal(s, p, HeadId(s).value, p.branch.text) && s2.work == ProposedFiles(s, p)
            && (AllStorable(s2.work) <==> AllStorable(Saved(s)))
  {
    OpenBranchLaw(s, p);
    OpenBranchAdvances(s, p);
    var s1, saved := OpenBranch(s, p).0, Saved(s);
    ReapplyAdvances(s1, SortedKeys(saved.Keys), saved);
    ReappliedMeaning(s1, saved, SortedKeys(saved.Keys));
    SavedStorable(s, s1.work);
    SameRefsSameHead(s1, Filled(s, p));
  }

  lemma SavedStorable(s: State, head: map<string, Object>)
    requires AllStorable(head)
    ensures AllStorable(head + SavedBlobs(Saved(s))) <==> AllStorable(Saved(s))
  {
  }

  lemma RefsAfter(refs: map<string, Ref>, name: string, base: Object, c: Object, back: string)
    requires HEAD != name
    ensures refs[name := Direct(base)][HEAD := Symbolic(name)][name := Direct(c)][HEAD := Symbolic(back)]
         == refs[name := Direct(c)][HEAD := Symbolic(back)]
    ensures refs[name := Direct(base)][HEAD := Symbolic(name)][name := Direct(c)]
         == refs[name := Direct(c)][HEAD := Symbolic(name)]
  {
  }

  /** Proposing, whatever the two names read as: when it succeeds, the commit it makes and the
      state it leaves. */
  lemma ProposeExact(s: State, p: Proposal)
    requires Valid(s) && (CurrentBranch(s).Some? ==> p.base.text == CurrentBranch(s).value)
    ensures var (s', r) := ProposeLocally(s, p);
            && (r.Ok? <==> CanPropose(s, p) && (CurrentBranch(s).Some? ==> ReadAsBase(s, p).Some?))
            && (r.Ok? ==>
                  && CommitOf(r.value, HeadId(s).value, ProposedFiles(s, p), p.info)
                  && (if CurrentBranch(s).Some?
                      then BackOn(s, p, HeadId(s).value, r.value, ReadAsBase(s, p), s')
                      else StaysOn(s, p, r.value, ProposedFiles(s, p), s')))
  {
    OpenBranchLaw(s, p);
    if OpenBranch(s, p).1.Ok? {
      FilledLaw(s, p);
      HeadIsCommit(s);
      var name := Branch(p.branch.text);
      assert HEAD != name by { assert HEAD[0] != name[0]; }
      if CurrentBranch(s).Some? {
        CloseExact(s, p, Filled(s, p));
      } else {
        StayExact(s, p, Filled(s, p));
      }
    }
  }

  lemma CloseExact(s: State, p: Proposal, s2: State)
    requires Valid(s) && CurrentBranch(s) == Some(p.base.text) && BranchFree(s, p.branch.text)
    requires Valid(s2) && HeadId(s).Some? && HeadId(s2) == HeadId(s) && OnBranch(s2, p.branch.text)
    requires s2.refs == WithProposal(s, p, HeadId(s).value, p.branch.text)
    ensures var (s', r) := CloseBranch(s2, p, true);
            var read := CheckedOut(CommitAll(s2, p.info).0, p.base);
            && (r.Ok? <==> s2.work != map[] && AllStorable(s2.work) && read.Some?)
            && (r.Ok? ==> CommitOf(r.value, HeadId(s).value, s2.work, p.info)
                          && BackOn(s, p, HeadId(s).value, r.value, read, s'))
  {
    OnCurrentBranch(s);
    var name, base := Branch(p.branch.text), HeadId(s).value;
    assert HEAD != name && HEAD != Branch(p.base.text) by {
      assert HEAD[0] != name[0] && HEAD[0] != Branch(p.base.text)[0];
    }
    HeadIsCommit(s);
    CloseBranchLaw(s2, p, base);
    var (s', r) := CloseBranch(s2, p, true);
    if r.Ok? {
      RefsAfter(s.refs, name, base, r.value, Branch(p.base.text));
    }
  }

  lemma StayExact(s: State, p: Proposal, s2: State)
    requires Valid(s2) && HeadId(s).Some? && HeadId(s2) == HeadId(s) && OnBranch(s2, p.branch.text)
    requires s2.refs == WithProposal(s, p, HeadId(s).value, p.branch.text)
    ensures var (s', r) := CloseBranch(s2, p, false);
            && (r.Ok? <==> s2.work != map[] && AllStorable(s2.work))
            && (r.Ok? ==> CommitOf(r.value, HeadId(s).value, s2.work, p.info) && StaysOn(s, p, r.value, s2.work, s'))
  {
    CommitLaw(s2, p.info);
    var (s', r) := CloseBranch(s2, p, false);
    var name := Branch(p.branch.text);
    assert HEAD != name by { assert HEAD[0] != name[0]; }
    if r.Ok? {
      RefsAfter(s.refs, name, HeadId(s).value, r.value, name);
    }
  }

  /** A file of the proposal: what is pending, unless it is empty, and otherwise what the new branch's
      name reads as has; a path that is a directory of another one gives way. */
  lemma ProposedContent(s: State, p: Proposal, q: string, b: Object)
    requires Valid(s) && (CurrentBranch(s).Some? ==> p.base.text == CurrentBranch(s).value)
    requires ProposeLocally(s, p).1.Ok?
    ensures ReadAsBranch(s, p).Some? && ReadAsBranch(s, p).value.Commit?
    ensures var c, kept := ProposeLocally(s, p).1.value, Flatten(ReadAsBranch(s, p).value.tree);
            && c.Commit?
            && ((q in Flatten(c.tree) && Flatten(c.tree)[q] == b) <==>
                && (if q in s.work && s.work[q] != Blob([]) then b == s.work[q] else q in kept && b == kept[q])
                && (forall d <- kept :: !DirPrefix(q, d))
                && (forall d <- s.work | s.work[d] != Blob([]) :: !DirPrefix(q, d)))
  {
    ProposeExact(s, p);
    var kept, saved := Flatten(ReadAsBranch(s, p).value.tree), SavedBlobs(Saved(s));
    SavedAre(s);
    PrunedAt(kept, saved, q, b);
  }

  lemma SavedAre(s: State)
    requires Valid(s)
    ensures forall q :: q in SavedBlobs(Saved(s)) <==> q in s.work && s.work[q] != Blob([])
    ensures forall q <- SavedBlobs(Saved(s)) :: SavedBlobs(Saved(s))[q] == s.work[q]
  {
  }

  lemma PrunedAt(base: map<string, Object>, over: map<string, Object>, q: string, b: Object)
    ensures (q in Prune(base + over) && Prune(base + over)[q] == b) <==>
            && (if q in over then b == over[q] else q in base && b == base[q])
            && (forall d <- base :: !DirPrefix(q, d)) && (forall d <- over :: !DirPrefix(q, d))
  {
    var m := base + over;
    assert m.Keys == base.Keys + over.Keys;
    if q in m {
      assert Shadowed(q, m.Keys) <==> !((forall d <- base :: !DirPrefix(q, d)) && forall d <- over :: !DirPrefix(q, d));
    }
  }

  /** What a proposal leaves when no other reference has one of the two names: the base branch
      and its files, untouched, and the proposal branch at a commit on top of it, with the
      non-empty pending files laid over. */
  ghost predicate ProposedOn(s: State, p: Proposal, base: Object, c: Object, s': State) {
    && base.Commit? && CommitOf(c, base, Flatten(base.tree) + SavedBlobs(Saved(s)), p.info)
    && HeadId(s') == Some(base) && OnBranch(s', p.base.text) && InSync(s')
    && s'.refs == WithProposal(s, p, c, p.base.text)
  }

  /** The branch can be made, and there are files, all storable. */
  predicate CanProposePlainly(s: State, p: Proposal) {
    && p.nameOk && BranchFree(s, p.branch.text)
    && HeadFiles(s) + SavedBlobs(Saved(s)) != map[] && AllStorable(Saved(s))
  }

  /** The names of the two branches read as their tips. */
  lemma ReadAsTips(s: State, p: Proposal)
    requires Valid(s) && CurrentBranch(s) == Some(p.base.text) && CanBranch(s, p)
    requires PlainName(s, p.branch) && PlainName(s, p.base) && NotHiddenBy(p.base.text, p.branch.text)
    ensures ReadAsBranch(s, p) == HeadId(s)
    ensures CanPropose(s, p) ==> ReadAsBase(s, p) == HeadId(s)
  {
    OnCurrentBranch(s);
    HeadIsCommit(s);
    CreateBranchKeeps(s, p.branch.text, p.nameOk, None);
    var s1 := CreateBranch(s, p.branch.text, p.nameOk, None).0;
    NameNotHiddenByItself(p.branch.text);
    StillPlain(s, p.branch, s1, p.branch.text);
    BranchNameResolves(s1, p.branch);
    if CanPropose(s, p) {
      OpenBranchLaw(s, p);
      FilledLaw(s, p);
      BaseReadAsTip(s, p, Filled(s, p));
    }
  }

  lemma BaseReadAsTip(s: State, p: Proposal, s2: State)
    requires Valid(s) && CurrentBranch(s) == Some(p.base.text) && CanBranch(s, p) && Valid(s2)
    requires PlainName(s, p.base) && NotHiddenBy(p.base.text, p.branch.text)
    requires HeadId(s2) == HeadId(s) && OnBranch(s2, p.branch.text)
    requires s2.refs == WithProposal(s, p, HeadId(s).value, p.branch.text)
    ensures CheckedOut(CommitAll(s2, p.info).0, p.base) == HeadId(s)
  {
    CommitLaw(s2, p.info);
    var (s3, r) := CommitAll(s2, p.info);
    var name, head := Branch(p.branch.text), HeadId(s).value;
    assert HEAD != name by { assert HEAD[0] != name[0]; }
    RefsAfter(s.refs, name, head, if r.Ok? then r.value else head, name);
    TipIsRead(s, p, s3, if r.Ok? then r.value else head);
  }

  lemma TipIsRead(s: State, p: Proposal, s3: State, c: Object)
    requires Valid(s) && CurrentBranch(s) == Some(p.base.text) && CanBranch(s, p) && Valid(s3)
    requires PlainName(s, p.base) && NotHiddenBy(p.base.text, p.branch.text)
    requires s3.refs == WithProposal(s, p, c, p.branch.text)
    ensures CheckedOut(s3, p.base) == HeadId(s)
  {
    OnCurrentBranch(s);
    HeadIsCommit(s);
    assert HEAD != Branch(p.base.text) by { assert HEAD[0] != Branch(p.base.text)[0]; }
    StillPlain(s, p.base, s3, p.branch.text);
    BranchNameResolves(s3, p.base);
  }

  /** Proposing on a branch, when no other reference has one of the two names. */
  lemma ProposeOnBranch(s: State, p: Proposal)
    requires Valid(s) && CurrentBranch(s) == Some(p.base.text)
    requires PlainName(s, p.branch) && PlainName(s, p.base) && NotHiddenBy(p.base.text, p.branch.text)
    ensures HeadId(s).Some?
    ensures var (s', r) := ProposeLocally(s, p);
            && (r.Ok? <==> CanProposePlainly(s, p))
            && (r.Ok? ==> ProposedOn(s, p, HeadId(s).value, r.value, s'))
  {
    OnCurrentBranch(s);
    HeadIsCommit(s);
    ProposeExact(s, p);
    if CanBranch(s, p) {
      ReadAsTips(s, p);
    }
  }

  /** The proposal's commit holds the tag's files when a tag has the proposal's name, and that
      name keeps reading as the tag. */
  lemma HiddenByTag(s: State, p: Proposal, o: Object)
    requires Valid(s) && CurrentBranch(s) == Some(p.base.text) && NamesTag(s, p.branch, o)
    ensures var (s', r) := ProposeLocally(s, p);
            r.Ok? ==>
              && Peel(o).Some? && HeadId(s).Some?
              && CommitOf(r.value, HeadId(s).value, Flatten(Peel(o).value.tree) + SavedBlobs(Saved(s)), p.info)
              && RevParse(s', p.branch) == Some(o)
  {
    ProposeExact(s, p);
    OnCurrentBranch(s);
    var (s', r) := ProposeLocally(s, p);
    if r.Ok? {
      ReadAsTag(s, p, o);
      StillTag(s, p.branch, o, s', Direct(r.value), Symbolic(Branch(p.base.text)));
    }
  }

  lemma ReadAsTag(s: State, p: Proposal, o: Object)
    requires NamesTag(s, p.branch, o) && CanBranch(s, p) && HEAD in s.refs
    ensures ReadAsBranch(s, p) == Peel(o)
  {
    var s1 := CreateBranch(s, p.branch.text, p.nameOk, None).0;
    if s1.refs == s.refs {
      TagResolves(s, p.branch, o);
    } else {
      assert HEAD != Branch(p.branch.text) by { assert HEAD[0] != Branch(p.branch.text)[0]; }
      assert s1.refs[HEAD := s.refs[HEAD]] == s1.refs;
      StillTag(s, p.branch, o, s1, s1.refs[Branch(p.branch.text)], s.refs[HEAD]);
    }
  }

  /** The name reads as a tag, at this object. */
  predicate NamesTag(s: State, rev: Rev, o: Object) {
    && rev.full.None? && rev.text != "" && rev.text !in s.refs && "refs/" + rev.text !in s.refs
    && TagRef(rev.text) in s.refs && s.refs[TagRef(rev.text)] == Direct(o)
  }

  lemma StillTag(s: State, rev: Rev, o: Object, s1: State, tip: Ref, head: Ref)
    requires NamesTag(s, rev, o) && HEAD in s.refs && s1.refs == s.refs[Branch(rev.text) := tip][HEAD := head]
    ensures RevParse(s1, rev) == Some(o)
  {
    NameNotHiddenByItself(rev.text);
    assert TagRef(rev.text) != HEAD && TagRef(rev.text) != Branch(rev.text) by {
      assert TagRef(rev.text)[0] != HEAD[0] && TagRef(rev.text)[5] != Branch(rev.text)[5];
    }
    assert "refs/" + rev.text != HEAD by { assert ("refs/" + rev.text)[0] != HEAD[0]; }
    TagResolves(s1, rev, o);
  }

  predicate FastForwardedTo(r: Result<MergeResult>, c: Object) {
    r.Ok? && r.value.fastForward && r.value.commitId == Some(c)
  }

  /** Merging what a text reads as fast-forwards to a commit on top of HEAD just when the text
      reads as that commit. */
  lemma AppliesIff(s: State, c: MergeCall, proposal: Object)
    requires Valid(s) && HeadId(s).Some? && OptsOk(c.opts)
    requires proposal.Commit? && proposal.parents == [HeadId(s).value]
    ensures var (s', r) := Merge(s, c);
            && (FastForwardedTo(r, proposal) <==> RevParse(s, c.rev) == Some(proposal))
            && (FastForwardedTo(r, proposal) ==> HeadId(s') == Some(proposal) && InSync(s'))
  {
    HeadIsCommit(s);
    ParentIsOlder(proposal, 0);
    if RevParse(s, c.rev) == Some(proposal) {
      RevParseInStore(s, c.rev);
      FastForwardLaw(s, proposal);
    } else {
      OnlyBeginForwards(s, c, proposal);
    }
  }

  lemma OnlyBeginForwards(s: State, c: MergeCall, proposal: Object)
    ensures FastForwardedTo(Merge(s, c).1, proposal) ==> RevParse(s, c.rev) == Some(proposal)
  {
  }

  function ApplyProposal(m: Managed, c: MergeCall): (Managed, Result<MergeResult>) {
    var (s', r) := Merge(m.repo, c);
    (if r.Ok? then Managed(s', HeadId(s')) else m.(repo := s'), r)
  }

  /** Proposing on a branch and applying with nothing in between, whatever the names read as: the
      proposal is one commit on top of HEAD, which stays, and applying is a fast-forward to it just
      when the text then given reads as it. */
  lemma ProposalAppliesIff(m: Managed, p: Proposal, r: Result<Object>, m1: Managed, c: MergeCall)
    requires Valid(m.repo) && CurrentBranch(m.repo) == Some(p.base.text)
    requires ProposalOk(m.repo, p) && Proposes(m, p, r, m1) && r.Ok?
    requires OptsOk(c.opts)
    ensures HeadId(m.repo).Some? && CanPropose(m.repo, p)
    ensures CommitOf(r.value, HeadId(m.repo).value, ProposedFiles(m.repo, p), p.info)
    ensures HeadId(m1.repo) == HeadId(m.repo)
    ensures var (m2, applied) := ApplyProposal(m1, c);
            && (FastForwardedTo(applied, r.value) <==> RevParse(m1.repo, c.rev) == Some(r.value))
            && (FastForwardedTo(applied, r.value) ==>
                  HeadId(m2.repo) == Some(r.value) && InStep(m2) && InSync(m2.repo))
  {
    ProposeExact(m.repo, p);
    ProposeAdvances(m.repo, p);
    FetchesKeeps(ProposeLocally(m.repo, p).0, p.pushed);
    AppliesIff(m1.repo, c, r.value);
  }

  /** With plain names: after the proposal the base tip and its files are as they were, and it is a
      commit whose only parent is that tip and whose tree is the base tree overlaid with the
      non-empty pending contents; applying it is a fast-forward that makes it HEAD, with its
      files. */
  lemma ProposeThenApply(m: Managed, p: Proposal, r: Result<Object>, m1: Managed, c: MergeCall)
    requires Valid(m.repo) && CurrentBranch(m.repo) == Some(p.base.text)
    requires PlainName(m.repo, p.branch) && PlainName(m.repo, p.base) && NotHiddenBy(p.base.text, p.branch.text)
    requires ProposalOk(m.repo, p) && Proposes(m, p, r, m1) && r.Ok?
    requires c.rev.text == p.branch.text && BranchNameOnly(m1.repo, c.rev) && OptsOk(c.opts)
    ensures HeadId(m.repo).Some? && HeadId(m.repo).value.Commit?
    ensures var base := HeadId(m.repo).value;
            && CommitOf(r.value, base, Flatten(base.tree) + SavedBlobs(Saved(m.repo)), p.info)
            && HeadId(m1.repo) == Some(base) && OnBranch(m1.repo, p.base.text) && m1.repo.work == Flatten(base.tree)
    ensures var (m2, applied) := ApplyProposal(m1, c);
            && FastForwardedTo(applied, r.value)
            && HeadId(m2.repo) == Some(r.value) && InStep(m2) && InSync(m2.repo)
  {
    ProposeOnBranch(m.repo, p);
    ProposeAdvances(m.repo, p);
    var (s', _) := ProposeLocally(m.repo, p);
    FetchesKeeps(s', p.pushed);
    PushedProposal(s', p, p.pushed, HeadId(m.repo).value, r.value, m.repo);
    BranchNameResolves(m1.repo, c.rev);
    ProposalAppliesIff(m, p, r, m1, c);
  }

  lemma PushedProposal(s': State, p: Proposal, pushed: State, base: Object, c: Object, s: State)
    requires ProposedOn(s, p, base, c, s') && Fetches(s', pushed) && HeadRef(pushed) == HeadRef(s')
    ensures HeadId(pushed) == Some(base) && OnBranch(pushed, p.base.text) && pushed.work == Flatten(base.tree)
    ensures Branch(p.branch.text) in pushed.refs && pushed.refs[Branch(p.branch.text)] == Direct(c)
  {
    var name := Branch(p.branch.text);
    assert HEAD != name by { assert HEAD[0] != name[0]; }
    assert IsBranchRef(name) && name in s'.refs;
  }

  // ---- Runs of calls ----

  function SwitchEnvironment(m: Managed, rev: Rev): (Managed, Result<()>) {
    var (s', r) := Checkout(m.repo, rev);
    (if r.Ok? then Managed(s', HeadId(s')) else m.(repo := s'), r)
  }

  /** A call with what it meets and what it returns. Restoring a tag is a switch, too. */
  datatype Call =
    | WriteConfig(path: string, data: Bytes)
    | DeleteConfig(path: string)
    | SyncWith(remote: Remote, report: SyncReport)
    | Publish(info: string, pushed: State, push: Result<()>, oid: Object)
    | SwitchTo(rev: Rev)
    | NewEnvironment(name: string, nameOk: bool, from: Option<Rev>)
    | TagState(name: string, nameOk: bool, note: Option<string>)
    | Propose(proposal: Proposal, oid: Object)
    | Apply(merge: MergeCall)

  /** The call returns normally. */
  ghost predicate Returns(m: Managed, call: Call, m': Managed) {
    match call
    case WriteConfig(path, data) =>
      var (s', r) := WriteFile(m.repo, path, data);
      r.Ok? && m' == m.(repo := s')
    case DeleteConfig(path) =>
      var (s', r) := DeleteFile(m.repo, path);
      r.Ok? && m' == m.(repo := s')
    case SyncWith(e, report) => RemoteOk(m.repo, e) && (m', Ok(report)) == Sync(m, e)
    case Publish(info, pushed, push, oid) =>
      && Publishes(m, info, pushed, push, Ok(oid), m')
      && PushOk(CommitAll(m.repo, info).0, CommitAll(m.repo, info).1, pushed)
    case SwitchTo(rev) => SwitchEnvironment(m, rev).1.Ok? && m' == SwitchEnvironment(m, rev).0
    case NewEnvironment(name, ok, from) =>
      var (s', r) := CreateBranch(m.repo, name, ok, from);
      r.Ok? && m' == m.(repo := s')
    case TagState(name, ok, note) =>
      var (s', r) := CreateTag(m.repo, name, ok, note, None);
      r.Ok? && m' == m.(repo := s')
    case Propose(p, oid) => ProposalOk(m.repo, p) && Proposes(m, p, Ok(oid), m')
    case Apply(c) => MergeCallOk(m.repo, c) && ApplyProposal(m, c).1.Ok? && m' == ApplyProposal(m, c).0
  }

  /** A switch that fails changes nothing, and a merge that fails leaves the remembered HEAD alone. */
  lemma FailedCalls(m: Managed, rev: Rev, c: MergeCall)
    requires Valid(m.repo)
    ensures SwitchEnvironment(m, rev).1.Err? ==> SwitchEnvironment(m, rev).0 == m
    ensures ApplyProposal(m, c).1.Err? ==> ApplyProposal(m, c).0 == Managed(Merge(m.repo, c).0, m.lastHead)
    ensures SwitchEnvironment(m, rev).1 == Checkout(m.repo, rev).1 && ApplyProposal(m, c).1 == Merge(m.repo, c).1
  {
    CheckoutKeeps(m.repo, rev);
  }

  /** The calls after which the manager looks at HEAD again. */
  predicate LooksAtHead(call: Call) {
    call.SyncWith? || call.Publish? || call.SwitchTo? || call.Propose? || call.Apply?
  }

  /** The new environment is the one an unborn HEAD waits for: then HEAD is born unnoticed. */
  predicate GivesBirth(s: State, call: Call) {
    call.NewEnvironment? && UnbornOn(s, call.name)
  }

  /** HEAD was born and the manager still remembers none. */
  predicate Unseen(m: Managed) {
    m.lastHead == None && HeadId(m.repo).Some?
  }

  /** After every call that returns, the remembered HEAD is the repository's HEAD, except right
      after the one call that gives birth to HEAD without looking at it. Then HEAD stays unseen
      until a call looks at it. */
  lemma CallInStep(m: Managed, call: Call, m': Managed)
    requires Valid(m.repo) && Returns(m, call, m')
    ensures Lasts(m.repo, m'.repo)
    ensures LooksAtHead(call) ==> InStep(m')
    ensures InStep(m) ==> (InStep(m') <==> !GivesBirth(m.repo, call))
    ensures InStep(m) && GivesBirth(m.repo, call) ==> Unseen(m')
    ensures Unseen(m) && !LooksAtHead(call) ==> Unseen(m')
  {
    if LooksAtHead(call) {
      LookingCall(m, call, m');
    } else {
      QuietCall(m, call, m');
    }
  }

  lemma LookingCall(m: Managed, call: Call, m': Managed)
    requires Valid(m.repo) && Returns(m, call, m') && LooksAtHead(call)
    ensures Lasts(m.repo, m'.repo) && InStep(m')
  {
    match call {
      case SyncWith(e, _) => SyncLaw(m, e);
      case Publish(info, pushed, push, oid) =>
        PublishLaw(m, info, pushed, push, Ok(oid), m');
      case SwitchTo(rev) => CheckoutAdvances(m.repo, rev);
      case Propose(p, oid) => ProposeLaw(m, p, Ok(oid), m');
      case Apply(c) => MergeLasts(m.repo, c);
    }
  }

  /** The other calls leave the remembered HEAD alone, and HEAD as well, except at its birth. */
  lemma QuietCall(m: Managed, call: Call, m': Managed)
    requires Valid(m.repo) && Returns(m, call, m') && !LooksAtHead(call)
    ensures Lasts(m.repo, m'.repo) && m'.lastHead == m.lastHead
    ensures HeadId(m'.repo) == HeadId(m.repo) <==> !GivesBirth(m.repo, call)
    ensures GivesBirth(m.repo, call) ==> HeadId(m.repo) == None
  {
    match call {
      case WriteConfig(path, data) => WriteFileKeeps(m.repo, path, data);
      case DeleteConfig(path) => DeleteFileKeeps(m.repo, path);
      case NewEnvironment(name, ok, from) =>
        HeadIsCommit(m.repo);
        CreateBranchKeeps(m.repo, name, ok, from);
      case TagState(name, ok, note) => CreateTagKeeps(m.repo, name, ok, note, None);
    }
  }

  ghost predicate CallAt(ms: seq<Managed>, calls: seq<Call>, i: nat)
    requires |ms| == |calls| + 1 && i < |calls|
  {
    Returns(ms[i], calls[i], ms[i + 1])
  }

  /** A run of calls that all return, from a manager just made for the repository. */
  ghost predicate ManagerRun(ms: seq<Managed>, calls: seq<Call>) {
    && |ms| == |calls| + 1 && Valid(ms[0].repo) && InStep(ms[0])
    && forall i | 0 <= i < |calls| :: CallAt(ms, calls, i)
  }

  lemma CallAtInStep(ms: seq<Managed>, calls: seq<Call>, i: nat)
    requires |ms| == |calls| + 1 && i < |calls| && CallAt(ms, calls, i) && Valid(ms[i].repo)
    ensures Lasts(ms[i].repo, ms[i + 1].repo) && (LooksAtHead(calls[i]) ==> InStep(ms[i + 1]))
    ensures InStep(ms[i]) && !GivesBirth(ms[i].repo, calls[i]) ==> InStep(ms[i + 1])
    ensures InStep(ms[i]) && GivesBirth(ms[i].repo, calls[i]) ==> Unseen(ms[i + 1])
    ensures Unseen(ms[i]) && !LooksAtHead(calls[i]) ==> Unseen(ms[i + 1])
  {
    CallInStep(ms[i], calls[i], ms[i + 1]);
  }

  lemma {:induction false} ManagerRunValid(ms: seq<Managed>, calls: seq<Call>, i: nat)
    requires ManagerRun(ms, calls) && i < |ms|
    ensures Valid(ms[i].repo)
  {
    if i > 0 {
      ManagerRunValid(ms, calls, i - 1);
      RunCall(ms, calls, i - 1);
    }
  }

  lemma RunCall(ms: seq<Managed>, calls: seq<Call>, i: nat)
    requires ManagerRun(ms, calls) && i < |calls| && Valid(ms[i].repo)
    ensures Lasts(ms[i].repo, ms[i + 1].repo) && (LooksAtHead(calls[i]) ==> InStep(ms[i + 1]))
    ensures InStep(ms[i]) && !GivesBirth(ms[i].repo, calls[i]) ==> InStep(ms[i + 1])
    ensures InStep(ms[i]) && GivesBirth(ms[i].repo, calls[i]) ==> Unseen(ms[i + 1])
    ensures Unseen(ms[i]) && !LooksAtHead(calls[i]) ==> Unseen(ms[i + 1])
  {
    CallAtInStep(ms, calls, i);
  }

  /** Since the last call that looked at HEAD, none gave birth to it. */
  predicate NoBirthSince(ms: seq<Managed>, calls: seq<Call>, i: nat)
    requires |ms| == |calls| + 1 && i < |ms|
  {
    i == 0 || LooksAtHead(calls[i - 1]) || (!GivesBirth(ms[i - 1].repo, calls[i - 1]) && NoBirthSince(ms, calls, i - 1))
  }

  /** In every run the manager remembers HEAD at exactly those moments at which HEAD was not born
      unnoticed since it last looked; at the others it remembers none. */
  lemma {:induction false} RunInStep(ms: seq<Managed>, calls: seq<Call>, i: nat)
    requires ManagerRun(ms, calls) && i < |ms|
    ensures InStep(ms[i]) <==> NoBirthSince(ms, calls, i)
    ensures !NoBirthSince(ms, calls, i) ==> Unseen(ms[i])
  {
    if i > 0 {
      ManagerRunValid(ms, calls, i - 1);
      RunInStep(ms, calls, i - 1);
      RunCall(ms, calls, i - 1);
    }
  }

  /** In every run, a sync reports a change just when HEAD moved during that sync or had been born
      unnoticed before. So its report is right just when HEAD moved or had not been. */
  lemma SyncReportsMoves(ms: seq<Managed>, calls: seq<Call>, i: nat)
    requires ManagerRun(ms, calls) && i < |calls| && calls[i].SyncWith?
    ensures var report, moved := calls[i].report, HeadId(ms[i].repo) != HeadId(ms[i + 1].repo);
            && (report.changes <==> moved || !NoBirthSince(ms, calls, i))
            && report.newHead == HeadId(ms[i + 1].repo)
            && (report.oldHead == HeadId(ms[i].repo) <==> NoBirthSince(ms, calls, i))
  {
    RunInStep(ms, calls, i);
    ManagerRunValid(ms, calls, i);
    SyncAt(ms, calls, i);
  }

  lemma SyncAt(ms: seq<Managed>, calls: seq<Call>, i: nat)
    requires ManagerRun(ms, calls) && i < |calls| && calls[i].SyncWith? && Valid(ms[i].repo)
    ensures var report := calls[i].report;
            && Lasts(ms[i].repo, ms[i + 1].repo)
            && (report.changes <==> ms[i].lastHead != HeadId(ms[i + 1].repo))
            && report.oldHead == ms[i].lastHead && report.newHead == HeadId(ms[i + 1].repo)
  {
    assert CallAt(ms, calls, i);
    SyncLaw(ms[i], calls[i].remote);
  }
}
