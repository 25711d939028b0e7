/** Whole runs of a repository shared by threads. Every operation holds the lock from start to
    end, except a merge with a resolver, which releases it between its first and last phase;
    other operations, and other merges, may happen in between. */
module Runs {
  import opened Text
  import opened Objects
  import opened MergeResolution
  import opened RepositoryState
  import opened Operations
  import opened OperationLaws

  /** The repository and the merges whose resolver is running, by number. */
  datatype World = World(repo: State, waiting: map<nat, Pending>)

  datatype Action =
    | Write(path: string, data: Bytes)
    | Delete(path: string)
    | CommitWork(info: string)
    | RemoveBranch(name: string)
    | NewBranch(name: string, nameOk: bool, from: Option<Rev>)
    | NewTag(name: string, nameOk: bool, note: Option<string>, from: Option<Rev>)
    | SwitchTo(rev: Rev)
    | Fetch
    | StartMerge(merge: nat, rev: Rev, opts: MergeOpts, merged: Option<Index>)
    | EndMerge(merge: nat, answers: seq<Answer>)
    | AbandonMerge(merge: nat)

  ghost predicate Step(w: World, a: Action, w': World) {
    match a
    case Write(path, data) => w' == w.(repo := WriteFile(w.repo, path, data).0)
    case Delete(path) => w' == w.(repo := DeleteFile(w.repo, path).0)
    case CommitWork(info) => w' == w.(repo := CommitAll(w.repo, info).0)
    case RemoveBranch(name) => w' == w.(repo := DeleteBranch(w.repo, name).0)
    case NewBranch(name, ok, from) => w' == w.(repo := CreateBranch(w.repo, name, ok, from).0)
    case NewTag(name, ok, note, from) => w' == w.(repo := CreateTag(w.repo, name, ok, note, from).0)
    case SwitchTo(rev) => w' == w.(repo := Checkout(w.repo, rev).0)
    case Fetch => Fetches(w.repo, w'.repo) && w'.waiting == w.waiting
    case StartMerge(m, rev, opts, merged) =>
      && m !in w.waiting && (merged.Some? ==> ValidIndex(merged.value))
      && var (s', r) := BeginMerge(w.repo, rev, opts, merged);
         w' == World(s', if r.Ok? && r.value.AwaitAnswers? then w.waiting[m := r.value.pending] else w.waiting)
    case EndMerge(m, answers) =>
      && m in w.waiting && |answers| == |w.waiting[m].index.conflicts|
      && w' == World(FinishMerge(w.repo, w.waiting[m], answers).0, w.waiting - {m})
    case AbandonMerge(m) => m in w.waiting && w' == w.(waiting := w.waiting - {m})
  }

  ghost predicate ValidWorld(w: World) {
    Valid(w.repo) && forall m <- w.waiting :: ValidPending(w.repo, w.waiting[m])
  }

  ghost predicate StepAt(ws: seq<World>, acts: seq<Action>, i: nat)
    requires |ws| == |acts| + 1 && i < |acts|
  {
    Step(ws[i], acts[i], ws[i + 1])
  }

  ghost predicate Run(ws: seq<World>, acts: seq<Action>) {
    && |ws| == |acts| + 1 && ValidWorld(ws[0])
    && forall i | 0 <= i < |acts| :: StepAt(ws, acts, i)
  }

  /** Every operation but the deletion of a branch only advances branch tips. */
  lemma StepKeeps(w: World, a: Action, w': World)
    requires ValidWorld(w) && Step(w, a, w') && !a.RemoveBranch?
    ensures Keeps(w.repo, w'.repo)
  {
    match a {
      case Write(path, data) => WriteFileKeeps(w.repo, path, data);
      case Delete(path) => DeleteFileKeeps(w.repo, path);
      case CommitWork(info) => CommitLaw(w.repo, info);
      case NewBranch(name, ok, from) => CreateBranchKeeps(w.repo, name, ok, from);
      case NewTag(name, ok, note, from) => CreateTagKeeps(w.repo, name, ok, note, from);
      case SwitchTo(rev) => CheckoutKeeps(w.repo, rev);
      case Fetch => FetchesKeeps(w.repo, w'.repo);
      case StartMerge(m, rev, opts, merged) => BeginMergeLaw(w.repo, rev, opts, merged);
      case EndMerge(m, answers) => FinishMergeLaw(w.repo, w.waiting[m], answers);
      case AbandonMerge(_) => DeleteFileKeeps(w.repo, "");
    }
  }

  /** No operation makes HEAD unborn. */
  lemma StepStaysBorn(w: World, a: Action, w': World)
    requires ValidWorld(w) && Step(w, a, w') && HeadId(w.repo).Some?
    ensures HeadId(w'.repo).Some?
  {
    match a {
      case CommitWork(info) => CommitLaw(w.repo, info);
      case RemoveBranch(name) => DeleteBranchLaw(w.repo, name);
      case NewBranch(name, ok, from) => CreateBranchKeeps(w.repo, name, ok, from);
      case NewTag(name, ok, note, from) => CreateTagKeeps(w.repo, name, ok, note, from);
      case SwitchTo(rev) => CheckoutStaysBorn(w.repo, rev);
      case Fetch => FetchesKeeps(w.repo, w'.repo);
      case StartMerge(m, rev, opts, merged) => BeginMergeLaw(w.repo, rev, opts, merged);
      case EndMerge(m, answers) => FinishMergeLaw(w.repo, w.waiting[m], answers);
      case _ =>
    }
  }

  lemma CheckoutStaysBorn(s: State, rev: Rev)
    requires Valid(s) && HeadId(s).Some?
    ensures HeadId(Checkout(s, rev).0).Some?
  {
    CheckoutKeeps(s, rev);
    HeadIsCommit(Checkout(s, rev).0);
    assert IsBranchRef(Branch(rev.text));
  }

  lemma StepLasts(w: World, a: Action, w': World)
    requires ValidWorld(w) && Step(w, a, w')
    ensures Lasts(w.repo, w'.repo)
  {
    if a.RemoveBranch? {
      DeleteBranchLaw(w.repo, a.name);
    } else {
      StepKeeps(w, a, w');
    }
    if HeadId(w.repo).Some? { StepStaysBorn(w, a, w'); }
  }

  /** A waiting merge can still end on whatever the repository has become. */
  lemma StepValid(w: World, a: Action, w': World)
    requires ValidWorld(w) && Step(w, a, w')
    ensures ValidWorld(w')
  {
    StepLasts(w, a, w');
    if a.StartMerge? {
      BeginMergeLaw(w.repo, a.rev, a.opts, a.merged);
    }
    forall m <- w'.waiting ensures ValidPending(w'.repo, w'.waiting[m]) {
      if m in w.waiting && w'.waiting[m] == w.waiting[m] {
        PendingLasts(w.repo, w'.repo, w.waiting[m]);
      }
    }
  }

  lemma PendingLasts(s: State, s': State, p: Pending)
    requires ValidPending(s, p) && s.odb <= s'.odb
    ensures ValidPending(s', p)
  {
  }

  lemma {:induction false} RunValid(ws: seq<World>, acts: seq<Action>, i: nat)
    requires Run(ws, acts) && i < |ws|
    ensures ValidWorld(ws[i])
  {
    if i > 0 {
      RunValid(ws, acts, i - 1);
      assert StepAt(ws, acts, i - 1);
      StepValid(ws[i - 1], acts[i - 1], ws[i]);
    }
  }

  /** Over any run, objects stay and HEAD, once born, stays born. */
  lemma {:induction false} RunLasts(ws: seq<World>, acts: seq<Action>, i: nat, j: nat)
    requires Run(ws, acts) && i <= j < |ws|
    ensures Lasts(ws[i].repo, ws[j].repo)
    decreases j
  {
    if i < j {
      RunLasts(ws, acts, i, j - 1);
      RunValid(ws, acts, j - 1);
      assert StepAt(ws, acts, j - 1);
      StepLasts(ws[j - 1], acts[j - 1], ws[j]);
    } else {
      RunValid(ws, acts, i);
    }
  }

  lemma TipsAdvanceTransitive(s0: State, s1: State, s2: State)
    requires TipsAdvance(s0, s1) && TipsAdvance(s1, s2)
    ensures TipsAdvance(s0, s2)
  {
    forall n <- s0.refs | IsBranchRef(n)
      ensures n in s2.refs && s0.refs[n].Direct? && s2.refs[n].Direct? && IsAncestor(s0.refs[n].id, s2.refs[n].id)
    {
      AncestorTransitive(s0.refs[n].id, s1.refs[n].id, s2.refs[n].id);
    }
  }

  lemma KeepsTransitive(s0: State, s1: State, s2: State)
    requires Keeps(s0, s1) && Keeps(s1, s2)
    ensures Keeps(s0, s2)
  {
    TipsAdvanceTransitive(s0, s1, s2);
  }

  // ---- Whole merge calls ----

  lemma BeginLasts(s: State, rev: Rev, opts: MergeOpts, merged: Option<Index>)
    requires Valid(s) && (merged.Some? ==> ValidIndex(merged.value))
    ensures var (s', r) := BeginMerge(s, rev, opts, merged);
            && Lasts(s, s') && (r.Ok? && r.value.AwaitAnswers? ==> ValidPending(s', r.value.pending))
  {
    BeginMergeLaw(s, rev, opts, merged);
  }

  lemma FinishLasts(s: State, p: Pending, answers: seq<Answer>)
    requires Valid(s) && ValidPending(s, p) && |answers| == |p.index.conflicts|
    ensures Lasts(s, FinishMerge(s, p, answers).0) && Keeps(s, FinishMerge(s, p, answers).0)
  {
    FinishMergeLaw(s, p, answers);
  }

  lemma LastsTransitive(s0: State, s1: State, s2: State)
    requires Lasts(s0, s1) && Lasts(s1, s2)
    ensures Lasts(s0, s2)
  {
  }

  /** Branch tips only advance, and HEAD stays born. */
  ghost predicate Advances(s: State, s': State) {
    Keeps(s, s') && Lasts(s, s')
  }

  lemma AdvancesTransitive(s0: State, s1: State, s2: State)
    requires Advances(s0, s1) && Advances(s1, s2)
    ensures Advances(s0, s2)
  {
    KeepsTransitive(s0, s1, s2);
  }

  lemma CommitAdvances(s: State, info: string)
    requires Valid(s)
    ensures Advances(s, CommitAll(s, info).0)
  {
    CommitLaw(s, info);
    if CommitAll(s, info).1.Err? {
      SameRefsSameHead(s, CommitAll(s, info).0);
    }
  }

  lemma SameRefsSameHead(s: State, s': State)
    requires s.refs == s'.refs
    ensures HeadId(s) == HeadId(s')
  {
  }

  lemma CheckoutAdvances(s: State, rev: Rev)
    requires Valid(s)
    ensures Advances(s, Checkout(s, rev).0)
  {
    CheckoutKeeps(s, rev);
    if HeadId(s).Some? { CheckoutStaysBorn(s, rev); }
  }

  /** A whole merge call, whatever happened while its resolver ran: the state lasts, and each of
      its two locked phases only advances branch tips. */
  lemma MergeLasts(s: State, c: MergeCall)
    requires Valid(s) && MergeCallOk(s, c)
    ensures Lasts(s, Merge(s, c).0)
    ensures var (s1, r) := BeginMerge(s, c.rev, c.opts, c.merged);
            && Keeps(s, s1)
            && (if r.Ok? && r.value.AwaitAnswers? then
                  Valid(c.meanwhile) && ValidPending(c.meanwhile, r.value.pending) && Keeps(c.meanwhile, Merge(s, c).0)
                else Merge(s, c).0 == s1)
  {
    BeginLasts(s, c.rev, c.opts, c.merged);
    BeginMergeLaw(s, c.rev, c.opts, c.merged);
    var (s1, r) := BeginMerge(s, c.rev, c.opts, c.merged);
    if r.Ok? && r.value.AwaitAnswers? {
      PendingLasts(s1, c.meanwhile, r.value.pending);
      ResumeLasts(c.meanwhile, r.value.pending, c.answers);
      LastsTransitive(s, s1, c.meanwhile);
      LastsTransitive(s, c.meanwhile, Merge(s, c).0);
    }
  }

  lemma ResumeLasts(meanwhile: State, p: Pending, answers: seq<Answer>)
    requires Valid(meanwhile) && ValidPending(meanwhile, p)
    ensures Lasts(meanwhile, Resume(p, meanwhile, answers).0) && Keeps(meanwhile, Resume(p, meanwhile, answers).0)
  {
    if |answers| == |p.index.conflicts| {
      FinishLasts(meanwhile, p, answers);
    } else {
      DeleteFileKeeps(meanwhile, "");
    }
  }

  lemma PullLasts(s: State, e: Remote)
    requires Valid(s) && RemoteOk(s, e)
    ensures Lasts(s, Pull(s, e).0) && Lasts(s, e.fetched) && HeadRef(e.fetched) == HeadRef(s)
  {
    FetchesKeeps(s, e.fetched);
    LastsTransitive(s, e.fetched, e.looked);
    if e.fetchOk && OnNamedBranch(e.looked) {
      LastsTransitive(s, e.looked, e.merging);
      MergeLasts(e.merging, e.merge);
      LastsTransitive(s, e.merging, Merge(e.merging, e.merge).0);
    }
  }

  /** Nothing happens while the resolver runs. */
  predicate Undisturbed(s: State, c: MergeCall) {
    var (s1, begun) := BeginMerge(s, c.rev, c.opts, c.merged);
    begun.Ok? && begun.value.AwaitAnswers? ==> c.meanwhile == s1
  }

  /** Nobody else does anything during the pull. */
  predicate Alone(e: Remote) {
    e.looked == e.fetched && e.merging == e.fetched && Undisturbed(e.fetched, e.merge)
  }

  // ---- Branch tips over a run ----

  /** The branch was there and still is, at a descendant of its tip. */
  ghost predicate TipAdvances(s: State, s': State, n: string) {
    && n in s.refs && n in s'.refs && s.refs[n].Direct? && s'.refs[n].Direct?
    && IsAncestor(s.refs[n].id, s'.refs[n].id)
  }

  predicate Deletes(a: Action, n: string) {
    a.RemoveBranch? && Branch(a.name) == n
  }

  lemma StepTip(w: World, a: Action, w': World, n: string)
    requires ValidWorld(w) && Step(w, a, w') && IsBranchRef(n) && n in w.repo.refs && !Deletes(a, n)
    ensures TipAdvances(w.repo, w'.repo, n)
  {
    if a.RemoveBranch? {
      DeleteBranchLaw(w.repo, a.name);
    } else {
      StepKeeps(w, a, w');
    }
  }

  /** Over any run, between any two moments of it, the tip of a branch only moved to a descendant,
      unless the branch was deleted in between. */
  lemma {:induction false} RunTipsAdvance(ws: seq<World>, acts: seq<Action>, i: nat, j: nat, n: string)
    requires Run(ws, acts) && i <= j < |ws| && IsBranchRef(n) && n in ws[i].repo.refs
    requires forall k | i <= k < j :: !Deletes(acts[k], n)
    ensures TipAdvances(ws[i].repo, ws[j].repo, n)
    decreases j
  {
    RunValid(ws, acts, i);
    if i < j {
      RunTipsAdvance(ws, acts, i, j - 1, n);
      RunValid(ws, acts, j - 1);
      assert StepAt(ws, acts, j - 1);
      StepTip(ws[j - 1], acts[j - 1], ws[j], n);
      AncestorTransitive(ws[i].repo.refs[n].id, ws[j - 1].repo.refs[n].id, ws[j].repo.refs[n].id);
    }
  }

  /** A merge that waited keeps its record until it ends, whatever else happens. */
  lemma {:induction false} WaitingUnchanged(ws: seq<World>, acts: seq<Action>, i: nat, j: nat, m: nat)
    requires Run(ws, acts) && i <= j < |ws| && m in ws[i].waiting
    requires forall k | i <= k < j ::
               !(acts[k].EndMerge? && acts[k].merge == m) && !(acts[k].AbandonMerge? && acts[k].merge == m)
    ensures m in ws[j].waiting && ws[j].waiting[m] == ws[i].waiting[m]
    decreases j
  {
    if i < j {
      WaitingUnchanged(ws, acts, i, j - 1, m);
      assert StepAt(ws, acts, j - 1);
    }
  }

  /** The first phase of a merge that has to wait. */
  lemma StartLaw(w: World, a: Action, w': World)
    requires ValidWorld(w) && a.StartMerge? && Step(w, a, w') && a.merge in w'.waiting
    ensures var p := w'.waiting[a.merge];
            && HeadId(w.repo) == Some(p.ours) && RevParse(w.repo, a.rev) == Some(p.theirs)
            && w'.repo.refs == w.repo.refs && w'.repo.work == w.repo.work
  {
    BeginMergeLaw(w.repo, a.rev, a.opts, a.merged);
  }

  /** How a waiting merge ends in the state `w` of that moment. */
  ghost predicate EndsOn(w: World, p: Pending, answers: seq<Answer>, w': World)
    requires |answers| == |p.index.conflicts|
  {
    && |Conflicts(p.index)| == |answers|
    && ConcludeLaw(w.repo, p, Unresolved(Conflicts(p.index), answers) == [] && !p.noCommit,
                   AnsweredFiles(p.index, answers), w'.repo, FinishMerge(w.repo, p, answers).1)
  }

  lemma EndLaw(w: World, p: Pending, answers: seq<Answer>, w': World)
    requires Valid(w.repo) && ValidPending(w.repo, p) && |answers| == |p.index.conflicts|
    requires w'.repo == FinishMerge(w.repo, p, answers).0
    ensures EndsOn(w, p, answers, w')
  {
    FinishMergeLaw(w.repo, p, answers);
  }

  lemma MergeStarts(ws: seq<World>, acts: seq<Action>, i: nat)
    requires Run(ws, acts) && i < |acts| && acts[i].StartMerge? && acts[i].merge in ws[i + 1].waiting
    ensures var p := ws[i + 1].waiting[acts[i].merge];
            && HeadId(ws[i].repo) == Some(p.ours) && RevParse(ws[i].repo, acts[i].rev) == Some(p.theirs)
            && ws[i + 1].repo.refs == ws[i].repo.refs && ws[i + 1].repo.work == ws[i].repo.work
  {
    RunValid(ws, acts, i);
    assert StepAt(ws, acts, i);
    StartLaw(ws[i], acts[i], ws[i + 1]);
  }

  lemma MergeEnds(ws: seq<World>, acts: seq<Action>, j: nat, p: Pending)
    requires Run(ws, acts) && j < |acts| && acts[j].EndMerge?
    requires acts[j].merge in ws[j].waiting && ws[j].waiting[acts[j].merge] == p
    ensures |acts[j].answers| == |p.index.conflicts| && EndsOn(ws[j], p, acts[j].answers, ws[j + 1])
  {
    RunValid(ws, acts, j);
    assert StepAt(ws, acts, j);
    EndLaw(ws[j], p, acts[j].answers, ws[j + 1]);
  }

  /** A merge whose resolver ran between moments `i` and `j` of a run, whatever other threads
      did meanwhile: at its end it commits on top of the tip of that moment, which is still the
      one it started from, or it moves no reference. It fails just when everything was
      resolved, committing was asked for, and HEAD is no longer at the commit it started from.
      Both of its locked phases leave references and working map alone when it does not
      commit. */
  lemma MergeAcrossRun(ws: seq<World>, acts: seq<Action>, i: nat, j: nat)
    requires Run(ws, acts) && i < j < |acts|
    requires acts[i].StartMerge? && acts[j].EndMerge? && acts[j].merge == acts[i].merge
    requires acts[i].merge in ws[i + 1].waiting
    requires forall k | i < k < j :: !(acts[k].EndMerge? && acts[k].merge == acts[i].merge)
                                     && !(acts[k].AbandonMerge? && acts[k].merge == acts[i].merge)
    ensures var p := ws[i + 1].waiting[acts[i].merge];
            && HeadId(ws[i].repo) == Some(p.ours) && RevParse(ws[i].repo, acts[i].rev) == Some(p.theirs)
            && ws[i + 1].repo.refs == ws[i].repo.refs && ws[i + 1].repo.work == ws[i].repo.work
            && HeadId(ws[j].repo).Some? && |acts[j].answers| == |p.index.conflicts|
            && EndsOn(ws[j], p, acts[j].answers, ws[j + 1])
  {
    MergeStarts(ws, acts, i);
    RunLasts(ws, acts, i, j);
    WaitingUnchanged(ws, acts, i + 1, j, acts[i].merge);
    MergeEnds(ws, acts, j, ws[i + 1].waiting[acts[i].merge]);
  }

  // ---- Runs of an in-memory repository ----

  /** From a new repository, without a remote: adding one would move it to a directory. */
  ghost predicate MemoryRun(ws: seq<World>, acts: seq<Action>) {
    Run(ws, acts) && ws[0] == World(State({}, map[], map[], false), map[]) && forall a <- acts :: !a.Fetch?
  }

  /** HEAD is born, or nothing has been committed: no HEAD, no commit, no branch, no merge. */
  predicate BornOrUnstarted(w: World) {
    || HeadId(w.repo).Some?
    || (HEAD !in w.repo.refs && w.waiting == map[] && NoCommits(w.repo))
  }

  predicate NoCommits(s: State) {
    (forall o <- s.odb :: !o.Commit?) && (forall n <- s.refs :: !IsBranchRef(n))
  }

  lemma UnstartedResolves(s: State, rev: Rev)
    requires Valid(s) && NoCommits(s)
    ensures RevParse(s, rev).Some? ==> !RevParse(s, rev).value.Commit? && Peel(RevParse(s, rev).value) == None
  {
    RevParseInStore(s, rev);
    if RevParse(s, rev).Some? {
      PeelInStore(s, RevParse(s, rev).value);
    }
  }

  lemma UnstartedTag(s: State, name: string, nameOk: bool, note: Option<string>, from: Option<Rev>)
    requires Valid(s) && NoCommits(s) && HEAD !in s.refs
    ensures var s' := CreateTag(s, name, nameOk, note, from).0; NoCommits(s') && HEAD !in s'.refs
  {
    if from.Some? {
      UnstartedResolves(s, from.value);
    }
    assert !IsBranchRef(TagRef(name)) by { assert TagRef(name)[5] != Branch("")[5]; }
    assert TagRef(name) != HEAD by { assert TagRef(name)[0] != HEAD[0]; }
  }

  lemma UnstartedCommit(s: State, info: string)
    requires Valid(s) && NoCommits(s) && !s.onDisk
    ensures var (s', r) := CommitAll(s, info); HeadId(s').Some? || (s'.refs == s.refs && NoCommits(s'))
  {
    CommitLaw(s, info);
    var (s', r) := CommitAll(s, info);
    if r.Err? {
      forall o <- s'.odb ensures !o.Commit? { assert o in s.odb || o in s'.odb - s.odb; }
    }
  }

  lemma UnstartedStep(w: World, a: Action, w': World)
    requires ValidWorld(w) && Step(w, a, w') && !a.Fetch? && !w.repo.onDisk
    requires HEAD !in w.repo.refs && w.waiting == map[] && NoCommits(w.repo)
    ensures BornOrUnstarted(w')
  {
    assert HeadId(w.repo) == None;
    match a {
      case CommitWork(info) => UnstartedCommit(w.repo, info);
      case NewBranch(name, ok, from) => if from.Some? { UnstartedResolves(w.repo, from.value); }
      case NewTag(name, ok, note, from) => UnstartedTag(w.repo, name, ok, note, from);
      case SwitchTo(rev) => UnstartedResolves(w.repo, rev);
      case RemoveBranch(name) => assert IsBranchRef(Branch(name));
      case _ =>
    }
  }

  lemma MemoryStep(w: World, a: Action, w': World)
    requires ValidWorld(w) && Step(w, a, w') && !a.Fetch? && !w.repo.onDisk && BornOrUnstarted(w)
    ensures BornOrUnstarted(w')
  {
    if HeadId(w.repo).Some? {
      StepStaysBorn(w, a, w');
    } else {
      UnstartedStep(w, a, w');
    }
  }

  lemma MemoryRunStep(ws: seq<World>, acts: seq<Action>, i: nat)
    requires MemoryRun(ws, acts) && i < |acts| && BornOrUnstarted(ws[i])
    ensures BornOrUnstarted(ws[i + 1])
  {
    RunValid(ws, acts, i);
    RunLasts(ws, acts, 0, i);
    assert StepAt(ws, acts, i);
    MemoryStep(ws[i], acts[i], ws[i + 1]);
  }

  /** In every run of an in-memory repository a HEAD that is there is born, and without one
      nothing has been committed. */
  lemma {:induction false} MemoryRunBorn(ws: seq<World>, acts: seq<Action>, i: nat)
    requires MemoryRun(ws, acts) && i < |ws|
    ensures BornOrUnstarted(ws[i])
  {
    if i > 0 {
      MemoryRunBorn(ws, acts, i - 1);
      MemoryRunStep(ws, acts, i - 1);
    }
  }
}
