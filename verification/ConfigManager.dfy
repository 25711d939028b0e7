/** The configuration manager on top of a repository: each of its methods, proved against what
    `ManagerCalls` says the call does. */
module ConfigManager {
  import opened Text
  import opened Objects
  import opened RepositoryState
  import opened Operations
  import opened OperationLaws
  import opened ManagerCalls
  import opened VirtualRepository

  class GitConfigManager {
    const repo: Repository
    var lastHead: Option<Object>

    function View(): Managed
      reads this, repo
    {
      Managed(repo.View(), lastHead)
    }

    ghost predicate Inv()
      reads this, repo
    {
      repo.Inv()
    }

    constructor (repo: Repository)
      requires repo.Inv()
      ensures this.repo == repo && Inv() && InStep(View()) && repo.View() == old(repo.View())
    {
      this.repo := repo;
      lastHead := HeadId(repo.View());
    }

    // ---- Files ----

    method WriteConfig(path: string, data: Bytes) returns (r: Result<()>)
      requires Inv()
      modifies repo`odb, repo`refs, repo`work
      ensures Inv() && lastHead == old(lastHead) && (repo.View(), r) == WriteFile(old(repo.View()), path, data)
    {
      r := repo.WriteFile(path, data);
    }

    method DeleteConfig(path: string) returns (r: Result<()>)
      requires Inv()
      modifies repo`work
      ensures Inv() && lastHead == old(lastHead) && (repo.View(), r) == DeleteFile(old(repo.View()), path)
    {
      r := repo.DeleteFile(path);
    }

    // ---- Sync and publish ----

    method Sync(e: Remote) returns (r: Result<SyncReport>)
      requires Inv() && RemoteOk(repo.View(), e)
      modifies this`lastHead, repo`odb, repo`refs, repo`work
      ensures Inv() && (View(), r) == ManagerCalls.Sync(old(View()), e)
    {
      var oldHead := lastHead;
      var merged := None;
      // pulling needs a local branch; without one, only fetch
      if HeadId(repo.View()).Some? && CurrentBranch(repo.View()).Some? {
        var pulled := repo.Pull(e);
        if pulled.Err? {
          return Err(pulled.error);
        }
        merged := Some(pulled.value);
      } else {
        var fetched := repo.Fetch(e.fetched, e.fetchOk);
        if fetched.Err? {
          return Err(fetched.error);
        }
      }
      var newHead := HeadId(repo.View());
      var changed := oldHead != newHead;
      lastHead := newHead;
      return Ok(SyncReport(changed, oldHead, newHead, merged));
    }

    method Publish(info: string, pushed: State, push: Result<()>) returns (r: Result<Object>)
      requires Inv() && PushOk(CommitAll(repo.View(), info).0, CommitAll(repo.View(), info).1, pushed)
      modifies this`lastHead, repo`odb, repo`refs, repo`work
      ensures Inv() && Publishes(old(View()), info, pushed, push, r, View())
    {
      var oid := repo.Commit(info);
      if oid.Err? {
        return oid;
      }
      lastHead := Some(oid.value);
      r := PushAndIgnore(pushed, push, oid.value);
    }

    /** A push whose usual failure is ignored. */
    method PushAndIgnore(pushed: State, push: Result<()>, oid: Object) returns (r: Result<Object>)
      requires Inv() && Fetches(repo.View(), pushed)
      modifies repo`odb, repo`refs
      ensures Inv() && repo.View() == pushed && r == PushResult(push, oid)
    {
      var outcome := repo.Push(pushed, push);
      if outcome.Err? && outcome.error != "GIT-PUSH-ERROR" {
        return Err(outcome.error);
      }
      return Ok(oid);
    }

    // ---- Environments and tags ----

    method SwitchEnvironment(rev: Rev) returns (r: Result<()>)
      requires Inv()
      modifies this`lastHead, repo`refs, repo`work
      ensures Inv() && (View(), r) == ManagerCalls.SwitchEnvironment(old(View()), rev)
    {
      r := repo.Checkout(rev);
      if r.Ok? {
        lastHead := HeadId(repo.View());
      }
    }

    method RestoreTag(tag: Rev) returns (r: Result<()>)
      requires Inv()
      modifies this`lastHead, repo`refs, repo`work
      ensures Inv() && (View(), r) == ManagerCalls.SwitchEnvironment(old(View()), tag)
    {
      r := repo.Checkout(tag);
      if r.Ok? {
        lastHead := HeadId(repo.View());
      }
    }

    method CreateEnvironment(name: string, nameOk: bool, from: Option<Rev>) returns (r: Result<()>)
      requires Inv()
      modifies repo`refs
      ensures Inv() && lastHead == old(lastHead)
              && (repo.View(), r) == CreateBranch(old(repo.View()), name, nameOk, from)
    {
      r := repo.CreateBranch(name, nameOk, from);
    }

    method TagState(name: string, nameOk: bool, note: Option<string>) returns (r: Result<()>)
      requires Inv()
      modifies repo`odb, repo`refs
      ensures Inv() && lastHead == old(lastHead)
              && (repo.View(), r) == CreateTag(old(repo.View()), name, nameOk, note, None)
    {
      r := repo.CreateTag(name, nameOk, note, None);
    }

    // ---- Proposals ----

    /** The contents of the pending files, except empty ones. */
    method SavePending() returns (saved: map<string, Bytes>)
      requires Inv()
      ensures saved == Saved(repo.View())
    {
      var pending := SortedKeys(repo.work.Keys);
      saved := map[];
      SliceAll(pending);
      SavedEnds(repo.View());
      for i := 0 to |pending|
        invariant saved == SavedOf(repo.View(), ToSet(pending[..i]))
      {
        SliceNext(pending, i);
        ReadsOverlay(repo.View(), pending[i]);
        var content := repo.ReadFile(pending[i]);
        if content.Ok? && content.value.Some? && content.value.value != [] {
          saved := saved[pending[i] := content.value.value];
        }
        SavedNext(repo.View(), ToSet(pending[..i]), pending[i]);
      }
    }

    method ReapplyPending(saved: map<string, Bytes>)
      requires Inv()
      modifies repo`odb, repo`refs, repo`work
      ensures Inv() && repo.View() == Reapplied(old(repo.View()), saved)
    {
      WriteAll(SortedKeys(saved.Keys), saved);
    }

    method WriteAll(paths: seq<string>, saved: map<string, Bytes>)
      requires Inv() && forall p <- paths :: p in saved
      modifies repo`odb, repo`refs, repo`work
      ensures Inv() && repo.View() == Reapply(old(repo.View()), paths, saved)
    {
      ghost var start := repo.View();
      for i := 0 to |paths|
        invariant Inv() && repo.View() == Reapply(start, paths[..i], saved)
      {
        ReapplyNext(start, paths, i, saved);
        var _ := repo.WriteFile(paths[i], saved[paths[i]]);
      }
      SliceAll(paths);
    }

    /** The new branch, checked out. */
    method OpenProposal(p: Proposal) returns (r: Result<()>)
      requires Inv()
      modifies repo`odb, repo`refs, repo`work
      ensures Inv() && (repo.View(), r) == OpenBranch(old(repo.View()), p)
    {
      r := repo.CreateBranch(p.branch.text, p.nameOk, None);
      if r.Ok? {
        r := repo.Checkout(p.branch);
      }
    }

    /** The commit on it, and the way back. */
    method CloseProposal(p: Proposal, back: bool) returns (r: Result<Object>)
      requires Inv()
      modifies repo`odb, repo`refs, repo`work
      ensures Inv() && (repo.View(), r) == CloseBranch(old(repo.View()), p, back)
    {
      r := repo.Commit(p.info);
      if r.Ok? && back {
        var switched := repo.Checkout(p.base);
        if switched.Err? {
          r := Err(switched.error);
        }
      }
    }

    /** The commit on a new branch, and the return to the old one. */
    method ProposeHere(p: Proposal) returns (r: Result<Object>)
      requires Inv()
      modifies repo`odb, repo`refs, repo`work
      ensures Inv() && (repo.View(), r) == ProposeLocally(old(repo.View()), p)
    {
      var base := CurrentBranch(repo.View());
      var saved := SavePending();
      var begun := OpenProposal(p);
      if begun.Err? {
        return Err(begun.error);
      }
      ReapplyPending(saved);
      r := CloseProposal(p, base.Some?);
    }

    method ProposeChanges(p: Proposal) returns (r: Result<Object>)
      requires Inv() && ProposalOk(repo.View(), p)
      modifies this`lastHead, repo`odb, repo`refs, repo`work
      ensures Inv() && Proposes(old(View()), p, r, View())
    {
      r := ProposeHere(p);
      if r.Ok? {
        lastHead := HeadId(repo.View());
        r := PushAndIgnore(p.pushed, p.push, r.value);
      }
    }

    method ApplyProposal(c: MergeCall) returns (r: Result<MergeResult>)
      requires Inv() && MergeCallOk(repo.View(), c)
      modifies this`lastHead, repo`odb, repo`refs, repo`work
      ensures Inv() && (View(), r) == ManagerCalls.ApplyProposal(old(View()), c)
    {
      r := repo.Merge(c);
      if r.Ok? {
        lastHead := HeadId(repo.View());
      }
    }
  }

  function SavedOf(s: State, ks: set<string>): map<string, Bytes> {
    map p | p in ks && p in s.work && s.work[p].Blob? && s.work[p].data != [] :: s.work[p].data
  }

  lemma SavedEnds(s: State)
    ensures SavedOf(s, {}) == map[] && SavedOf(s, ToSet(SortedKeys(s.work.Keys))) == Saved(s)
  {
    SortedKeysSet(s.work.Keys);
  }

  lemma SavedNext(s: State, ks: set<string>, p: string)
    requires p in s.work
    ensures SavedOf(s, ks + {p}) ==
            if s.work[p].Blob? && s.work[p].data != [] then SavedOf(s, ks)[p := s.work[p].data] else SavedOf(s, ks)
  {
    if !(s.work[p].Blob? && s.work[p].data != []) {
      assert SavedOf(s, ks + {p}).Keys == SavedOf(s, ks).Keys;
    }
  }
}
