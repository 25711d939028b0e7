/** The configuration watcher: a poll pulls, compares HEAD with the one last seen, and tells its
    observers. */
module ConfigWatcher {
  import opened Text
  import opened Objects
  import opened MergeResolution
  import opened RepositoryState
  import opened Operations
  import opened OperationLaws
  import opened Runs
  import opened VirtualRepository

  datatype Event =
    | Changed(oldHead: Option<Object>, newHead: Option<Object>, changes: seq<string>, merged: MergeResult)
    | Conflicted(conflicts: seq<Conflict>)

  /** The HEAD last seen and the events so far. */
  datatype Watched = Watched(lastHead: Option<Object>, events: seq<Event>)

  /** What a poll meets: how the pull ends, HEAD afterwards, and the diff, if it can be made. */
  datatype Poll = Poll(pulled: Result<MergeResult>, head: Option<Object>, diff: Option<seq<string>>)

  function ChangesOf(seen: Option<Object>, p: Poll): seq<string> {
    if seen.Some? && p.head.Some? && p.diff.Some? then p.diff.value else []
  }

  function EventsOf(seen: Option<Object>, p: Poll): seq<Event> {
    if p.pulled.Err? || seen == p.head then []
    else
      var merged := p.pulled.value;
      [Changed(seen, p.head, ChangesOf(seen, p), merged)]
      + if merged.conflicts && merged.conflictList != [] then [Conflicted(merged.conflictList)] else []
  }

  function Observe(w: Watched, p: Poll): Watched {
    Watched(if p.pulled.Ok? then p.head else w.lastHead, w.events + EventsOf(w.lastHead, p))
  }

  class GitConfigWatcher {
    const repo: Repository
    var lastHead: Option<Object>
    /** What the observers were told. */
    var events: seq<Event>

    function View(): Watched
      reads this
    {
      Watched(lastHead, events)
    }

    constructor (repo: Repository)
      ensures this.repo == repo && View() == Watched(HeadId(repo.View()), [])
    {
      this.repo := repo;
      lastHead, events := HeadId(repo.View()), [];
    }

    method NotifyObservers(event: Event)
      modifies this`events
      ensures events == old(events) + [event]
    {
      events := events + [event];
    }

    /** One poll. Others may change the repository between the pull and the look at HEAD; they
        leave it in the state `others`. */
    method PollOnce(e: Remote, others: State, diff: Option<seq<string>>)
      requires repo.Inv() && RemoteOk(repo.View(), e)
      requires Operations.Pull(repo.View(), e).1.Ok? ==> Lasts(Operations.Pull(repo.View(), e).0, others)
      modifies this`lastHead, this`events, repo`odb, repo`refs, repo`work
      ensures repo.Inv()
      ensures var (s', pulled) := Operations.Pull(old(repo.View()), e);
              && repo.View() == (if pulled.Ok? then others else s')
              && View() == Observe(old(View()), Poll(pulled, HeadId(others), diff))
    {
      var oldHead := lastHead;
      var pulled := repo.Pull(e);
      if pulled.Err? {
        // a failed pull does not stop the watcher
        return;
      }
      repo.odb, repo.refs, repo.work := others.odb, others.refs, others.work;
      Report(oldHead, pulled.value, HeadId(repo.View()), diff);
    }

    /** Compares HEAD with the one last seen and notifies the observers. */
    method Report(oldHead: Option<Object>, merged: MergeResult, newHead: Option<Object>, diff: Option<seq<string>>)
      requires oldHead == lastHead
      modifies this`lastHead, this`events
      ensures View() == Observe(old(View()), Poll(Ok(merged), newHead, diff))
    {
      if oldHead == newHead {
        return;
      }
      var changes := [];
      if oldHead.Some? && newHead.Some? {
        // without a diff the change is still reported
        if diff.Some? {
          changes := diff.value;
        }
      }
      lastHead := newHead;
      NotifyObservers(Changed(oldHead, newHead, changes, merged));
      // unresolved conflicts are told separately
      if merged.conflicts && merged.conflictList != [] {
        NotifyObservers(Conflicted(merged.conflictList));
      }
    }
  }

  /** What observers are told: nothing of a failed pull or an unmoved HEAD; otherwise the move, with
      the diff when there is one between two commits, and then the conflicts the pull left. */
  lemma PollTells(w: Watched, p: Poll)
    ensures p.pulled.Err? ==> Observe(w, p) == w
    ensures p.pulled.Ok? && p.head == w.lastHead ==> Observe(w, p) == w
    ensures p.pulled.Ok? && p.head != w.lastHead ==>
              var w', merged, n := Observe(w, p), p.pulled.value, |w.events|;
              && w'.lastHead == p.head && w.events < w'.events && w'.events[n].Changed?
              && w'.events[n].oldHead == w.lastHead && w'.events[n].newHead == p.head && w'.events[n].merged == merged
              && (w.lastHead != None && p.head != None && p.diff != None ==> Some(w'.events[n].changes) == p.diff)
              && (w.lastHead == None || p.head == None || p.diff == None ==> w'.events[n].changes == [])
              && (if merged.conflicts && merged.conflictList != []
                  then w'.events[n + 1..] == [Conflicted(merged.conflictList)] else |w'.events| == n + 1)
  {
  }

  // ---- Runs of polls ----

  function Watch(start: Watched, polls: seq<Poll>): Watched {
    if polls == [] then start else Observe(Watch(start, polls[..|polls| - 1]), polls[|polls| - 1])
  }

  function Changes(events: seq<Event>): seq<Event> {
    if events == [] then []
    else
      var last := events[|events| - 1];
      Changes(events[..|events| - 1]) + if last.Changed? then [last] else []
  }

  /** Each change starts where the one before ended, and is one. */
  ghost predicate GapFree(start: Option<Object>, cs: seq<Event>, end: Option<Object>) {
    && (forall c <- cs :: c.Changed? && c.oldHead != c.newHead)
    && (forall i | 0 <= i < |cs| - 1 :: cs[i + 1].oldHead == cs[i].newHead)
    && (if cs == [] then start == end else cs[0].oldHead == start && cs[|cs| - 1].newHead == end)
  }

  lemma {:induction false} ChangesAppend(events: seq<Event>, more: seq<Event>)
    ensures Changes(events + more) == Changes(events) + Changes(more)
    decreases |more|
  {
    if more == [] {
      assert events + more == events;
    } else {
      ChangesAppend(events, more[..|more| - 1]);
      assert (events + more)[..|events + more| - 1] == events + more[..|more| - 1];
    }
  }

  lemma ChangesOfPoll(seen: Option<Object>, p: Poll)
    ensures Changes(EventsOf(seen, p)) ==
            if p.pulled.Err? || seen == p.head then [] else [Changed(seen, p.head, ChangesOf(seen, p), p.pulled.value)]
  {
    if p.pulled.Ok? && seen != p.head {
      var c := Changed(seen, p.head, ChangesOf(seen, p), p.pulled.value);
      assert Changes([c]) == [c];
      var all := EventsOf(seen, p);
      assert |all| == 2 ==> all[..1] == [c] && !all[1].Changed?;
    }
  }

  /** Over any run of polls, failed ones and moves by others included, the change events form a
      gap-free chain from the HEAD seen at construction to the remembered one. */
  lemma {:induction false} RunGapFree(start: Option<Object>, polls: seq<Poll>)
    ensures var w := Watch(Watched(start, []), polls);
            GapFree(start, Changes(w.events), w.lastHead)
  {
    if polls != [] {
      var before, p := Watch(Watched(start, []), polls[..|polls| - 1]), polls[|polls| - 1];
      RunGapFree(start, polls[..|polls| - 1]);
      ChangesAppend(before.events, EventsOf(before.lastHead, p));
      ChangesOfPoll(before.lastHead, p);
      ChainGrows(start, Changes(before.events), before.lastHead, p);
    }
  }

  lemma ChainGrows(start: Option<Object>, cs: seq<Event>, end: Option<Object>, p: Poll)
    requires GapFree(start, cs, end)
    ensures p.pulled.Err? || end == p.head ==> GapFree(start, cs + [], end)
    ensures p.pulled.Ok? && end != p.head ==>
              GapFree(start, cs + [Changed(end, p.head, ChangesOf(end, p), p.pulled.value)], p.head)
  {
    assert cs + [] == cs;
  }

  /** After every poll whose pull succeeded, the remembered HEAD is the one seen then. */
  lemma RemembersLastSeen(start: Watched, polls: seq<Poll>, i: nat)
    requires i < |polls| && polls[i].pulled.Ok?
    requires forall j | i < j < |polls| :: polls[j].pulled.Err?
    ensures Watch(start, polls).lastHead == polls[i].head
    decreases |polls|
  {
    if i < |polls| - 1 {
      RemembersLastSeen(start, polls[..|polls| - 1], i);
    }
  }

  // ---- Conflicts ----

  /** A conflict event is sent just when a pull left conflicts and HEAD has moved. */
  lemma ConflictEventIff(w: Watched, p: Poll)
    ensures (exists e <- EventsOf(w.lastHead, p) :: e.Conflicted?) <==>
            && p.pulled.Ok? && p.pulled.value.conflicts && p.pulled.value.conflictList != []
            && w.lastHead != p.head
  {
    var all := EventsOf(w.lastHead, p);
    if |all| == 2 {
      assert all[1] in all && all[1].Conflicted?;
    }
  }

  lemma SettledHasNone(s: State, ours: Object, theirs: Object, ix: Index, opts: MergeOpts, conflicts: bool,
      paths: seq<string>)
    ensures var r := Settled(s, ours, theirs, ix, opts, conflicts, paths).1;
            r.Ok? ==> r.value.Done? && r.value.result.conflictList == []
  {
  }

  lemma IndexedUnresolved(s: State, ours: Object, theirs: Object, opts: MergeOpts, ix: Index)
    ensures var (s', r) := MergeIndexed(s, ours, theirs, opts, ix);
            r.Ok? && r.value.Done? && r.value.result.conflictList != [] ==> s'.refs == s.refs
  {
    var s1 := s.(odb := s.odb + IndexBlobs(ix));
    if ix.conflicts == map[] {
      SettledHasNone(s1, ours, theirs, ix, opts, false, []);
    } else if opts.strategy == "ours" || opts.strategy == "theirs" {
      SettledHasNone(s1, ours, theirs, TakeSide(ix, opts.strategy == "ours"), opts, true,
          SortedKeys(ix.conflicts.Keys));
    }
  }

  lemma BeginUnresolved(s: State, rev: Rev, opts: MergeOpts, merged: Option<Index>)
    requires var r := BeginMerge(s, rev, opts, merged).1; r.Ok? && r.value.Done? && r.value.result.conflictList != []
    ensures BeginMerge(s, rev, opts, merged).0.refs == s.refs
  {
    if merged.Some? && RevParse(s, rev).Some? && HeadId(s).Some? {
      IndexedUnresolved(s, HeadId(s).value, RevParse(s, rev).value, opts, merged.value);
    }
  }

  lemma BeginAwaits(s: State, rev: Rev, opts: MergeOpts, merged: Option<Index>)
    requires var r := BeginMerge(s, rev, opts, merged).1; r.Ok? && r.value.AwaitAnswers?
    ensures BeginMerge(s, rev, opts, merged).0.refs == s.refs
  {
  }

  lemma FinishUnresolved(s: State, p: Pending, answers: seq<Answer>)
    requires |answers| == |p.index.conflicts|
    requires var r := FinishMerge(s, p, answers).1; r.Ok? && r.value.conflictList != []
    ensures FinishMerge(s, p, answers).0.refs == s.refs
  {
  }

  /** A merge that leaves conflicts moves no reference. */
  lemma UnresolvedMerge(s: State, c: MergeCall)
    requires Undisturbed(s, c) && Merge(s, c).1.Ok? && Merge(s, c).1.value.conflictList != []
    ensures Merge(s, c).0.refs == s.refs
  {
    var (s1, begun) := BeginMerge(s, c.rev, c.opts, c.merged);
    if begun.value.Done? {
      BeginUnresolved(s, c.rev, c.opts, c.merged);
    } else {
      BeginAwaits(s, c.rev, c.opts, c.merged);
      FinishUnresolved(c.meanwhile, begun.value.pending, c.answers);
    }
  }

  lemma UnresolvedPull(s: State, e: Remote)
    requires Valid(s) && RemoteOk(s, e) && Alone(e)
    requires Pull(s, e).1.Ok? && Pull(s, e).1.value.conflictList != []
    ensures HeadId(Pull(s, e).0) == HeadId(s)
  {
    FetchesKeeps(s, e.fetched);
    UnresolvedMerge(e.fetched, e.merge);
    SameRefsSameHead(Pull(s, e).0, e.fetched);
  }

  /** So when nobody else moves HEAD, a poll whose pull leaves unresolved conflicts tells the
      observers nothing at all. */
  lemma ConflictsUnreported(s: State, e: Remote, w: Watched, diff: Option<seq<string>>)
    requires Valid(s) && RemoteOk(s, e) && Alone(e) && w.lastHead == HeadId(s)
    requires Pull(s, e).1.Ok? && Pull(s, e).1.value.conflictList != []
    ensures Observe(w, Poll(Pull(s, e).1, HeadId(Pull(s, e).0), diff)) == w
  {
    UnresolvedPull(s, e);
    NothingToTell(w, Poll(Pull(s, e).1, HeadId(Pull(s, e).0), diff));
  }

  lemma NothingToTell(w: Watched, p: Poll)
    requires w.lastHead == p.head
    ensures Observe(w, p) == w
  {
  }
}
