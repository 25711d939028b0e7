/** Moving an in-memory repository to a temporary directory: what can go wrong, and what the
    repository is afterwards. */
module Migration {
  import opened Text
  import opened Paths
  import opened Objects
  import opened RepositoryState
  import opened Operations
  import opened Runs

  /** A repository in a directory. */
  datatype Disk = Disk(odb: set<Object>, refs: map<string, Ref>)

  /** Everything the surroundings decide: the fresh directory if one can be made, which steps
      fail, at which object or reference a cancellation would be noticed, and the branch a
      newly initialized repository points HEAD at. */
  datatype Faults = Faults(
    tempDir: Option<string>, initOk: bool, odbsOk: bool,
    unreadable: set<Object>, unwritable: set<Object>, cancelAtObject: set<nat>,
    refListOk: bool, refLookupFails: set<string>, refCreateFails: set<string>, cancelAtRef: set<nat>,
    headLookupOk: bool, headCreateOk: bool, initHead: string)

  /** Cancellation is looked at every hundredth step only. */
  function Noticed(at: set<nat>): set<nat> {
    set k | k in at && k % 100 == 0
  }

  predicate NoneBelow(at: set<nat>, n: nat) {
    forall k <- at :: k >= n
  }

  lemma NoneBelowNext(at: set<nat>, i: nat)
    ensures NoneBelow(at, i + 1) <==> NoneBelow(at, i) && i !in at
    ensures forall n: nat | i < n && i in at :: !NoneBelow(at, n)
  {
  }

  predicate ObjectsCopy(odb: set<Object>, f: Faults) {
    && (forall o <- odb :: o !in f.unreadable && o !in f.unwritable)
    && (forall k | 1 <= k <= |odb| :: k !in Noticed(f.cancelAtObject))
  }

  /** The loop over the objects: some are copied, the others are still to do. */
  predicate CopiedObjects(odb: set<Object>, done: set<Object>, todo: set<Object>, count: nat, f: Faults) {
    && done + todo == odb && done !! todo && count == |done|
    && (forall o <- done :: o !in f.unreadable && o !in f.unwritable)
    && (forall k | 1 <= k <= count :: k !in Noticed(f.cancelAtObject))
  }

  lemma CopyOneMore(odb: set<Object>, done: set<Object>, todo: set<Object>, count: nat, f: Faults, o: Object)
    requires CopiedObjects(odb, done, todo, count, f) && o in todo
    ensures var stops := count + 1 in Noticed(f.cancelAtObject) || o in f.unreadable || o in f.unwritable;
            if stops then !ObjectsCopy(odb, f) else CopiedObjects(odb, done + {o}, todo - {o}, count + 1, f)
  {
    SubsetSize(done + {o}, odb);
  }

  predicate RefsCopy(refs: map<string, Ref>, f: Faults) {
    f.refListOk ==> NoneBelow(Noticed(f.cancelAtRef), |refs|)
  }

  predicate Succeeds(s: State, f: Faults) {
    f.tempDir.Some? && f.initOk && f.odbsOk && ObjectsCopy(s.odb, f) && RefsCopy(s.refs, f)
  }

  /** Creating one listed reference; a failure is not noticed. */
  function CreateRef(disk: map<string, Ref>, refs: map<string, Ref>, n: string, f: Faults): map<string, Ref>
    requires n in refs
  {
    if n in f.refLookupFails || n in f.refCreateFails || !PathFree(disk.Keys, n) then disk else disk[n := refs[n]]
  }

  function CreateListed(disk: map<string, Ref>, refs: map<string, Ref>, ks: seq<string>, f: Faults): map<string, Ref>
    requires forall k <- ks :: k in refs
  {
    if ks == [] then disk
    else CreateRef(CreateListed(disk, refs, ks[..|ks| - 1], f), refs, ks[|ks| - 1], f)
  }

  function CreateHead(disk: map<string, Ref>, refs: map<string, Ref>, f: Faults): map<string, Ref> {
    if HEAD in refs && f.headLookupOk && f.headCreateOk && PathFree(disk.Keys, HEAD)
    then disk[HEAD := refs[HEAD]] else disk
  }

  function InitialRefs(f: Faults): map<string, Ref> { map[HEAD := Symbolic(f.initHead)] }

  function CreateAll(disk: map<string, Ref>, refs: map<string, Ref>, f: Faults): map<string, Ref> {
    if f.refListOk then CreateListed(disk, refs, SortedKeys(refs.Keys), f) else disk
  }

  /** The references of the new repository: what initialization made, what was listed, HEAD. */
  function CopiedRefs(refs: map<string, Ref>, f: Faults): map<string, Ref> {
    CreateHead(CreateAll(InitialRefs(f), refs, f), refs, f)
  }

  function Migrated(s: State, f: Faults): State {
    State(s.odb, CopiedRefs(s.refs, f), s.work, true)
  }

  /** A migration succeeds just when there is a directory that can be made a repository, every object
      can be read and written, and no cancellation falls on an object or a listed reference at which
      it is looked for: every hundredth object, counted from 1, and reference, counted from 0. */
  lemma SucceedsIff(s: State, f: Faults)
    ensures Succeeds(s, f) <==>
            && f.tempDir != None && f.initOk && f.odbsOk
            && s.odb !! f.unreadable && s.odb !! f.unwritable
            && (forall k <- f.cancelAtObject :: k % 100 == 0 ==> k == 0 || k > |s.odb|)
            && (f.refListOk ==> forall k <- f.cancelAtRef :: k % 100 == 0 ==> k >= |s.refs|)
  {
    assert s.odb !! f.unreadable && s.odb !! f.unwritable <==>
           forall o <- s.odb :: o !in f.unreadable && o !in f.unwritable;
    NoneNoticed(f.cancelAtObject, |s.odb|);
    RefsNoticed(f.cancelAtRef, |s.refs|);
  }

  lemma NoneNoticed(at: set<nat>, n: nat)
    ensures (forall k | 1 <= k <= n :: k !in Noticed(at)) <==> forall k <- at :: k % 100 == 0 ==> k == 0 || k > n
  {
    if forall k | 1 <= k <= n :: k !in Noticed(at) {
      forall k <- at | k % 100 == 0 ensures k == 0 || k > n {
        assert k in Noticed(at);
      }
    }
  }

  lemma RefsNoticed(at: set<nat>, n: nat)
    ensures NoneBelow(Noticed(at), n) <==> forall k <- at :: k % 100 == 0 ==> k >= n
  {
    if NoneBelow(Noticed(at), n) {
      forall k <- at | k % 100 == 0 ensures k >= n {
        assert k in Noticed(at);
      }
    }
  }

  /** Direct references only point to objects that are there. */
  predicate Safe(d: Disk) {
    forall n <- d.refs :: d.refs[n].Direct? ==> d.refs[n].id in d.odb
  }

  /** At most one object was added, or one reference set. */
  predicate OneStep(d: Disk, d': Disk) {
    || d == d'
    || (d'.refs == d.refs && exists o <- d'.odb :: d'.odb == d.odb + {o})
    || (d'.odb == d.odb && exists n <- d'.refs :: d'.refs == d.refs[n := d'.refs[n]])
  }

  /** What a directory contains, step by step, never with a dangling direct reference. */
  ghost predicate Chain(t: seq<Disk>, a: Disk, b: Disk) {
    && t != [] && t[0] == a && t[|t| - 1] == b
    && (forall i | 0 <= i < |t| - 1 :: OneStep(t[i], t[i + 1]))
    && (forall d <- t :: Safe(d))
  }

  lemma ChainSnoc(t: seq<Disk>, a: Disk, b: Disk, c: Disk)
    requires Chain(t, a, b) && OneStep(b, c) && Safe(c)
    ensures Chain(t + [c], a, c)
  {
    forall i | 0 <= i < |t + [c]| - 1 ensures OneStep((t + [c])[i], (t + [c])[i + 1]) {
      if i < |t| - 1 { assert OneStep(t[i], t[i + 1]); }
    }
  }

  lemma ChainJoin(t: seq<Disk>, u: seq<Disk>, a: Disk, b: Disk, c: Disk)
    requires Chain(t, a, b) && Chain(u, b, c)
    ensures Chain(t + u[1..], a, c)
  {
    var w := t + u[1..];
    forall i | 0 <= i < |w| - 1 ensures OneStep(w[i], w[i + 1]) {
      if i < |t| - 1 {
        assert OneStep(t[i], t[i + 1]);
      } else {
        assert OneStep(u[i - |t| + 1], u[i - |t| + 2]);
      }
    }
    forall d <- w ensures Safe(d) { assert d in t || d in u; }
    assert w[|w| - 1] == u[|u| - 1];
  }

  predicate CopiedSoFar(d: Disk, odb: set<Object>, refs: map<string, Ref>) {
    d.odb == odb && d.refs == refs && Safe(d)
  }

  lemma CreateListedNext(disk: map<string, Ref>, refs: map<string, Ref>, ks: seq<string>, i: nat, f: Faults)
    requires (forall k <- ks :: k in refs) && i < |ks|
    ensures CreateListed(disk, refs, ks[..i + 1], f) == CreateRef(CreateListed(disk, refs, ks[..i], f), refs, ks[i], f)
  {
    assert ks[..i + 1][..i] == ks[..i];
  }

  /** Every reference that arrives is one of the source, or the initial HEAD. */
  lemma {:induction false} CreateListedFrom(disk: map<string, Ref>, refs: map<string, Ref>, ks: seq<string>, f: Faults)
    requires forall k <- ks :: k in refs
    ensures var all := CreateListed(disk, refs, ks, f);
            forall n <- all :: (n in refs && all[n] == refs[n]) || (n in disk && all[n] == disk[n])
  {
    if ks != [] {
      CreateListedFrom(disk, refs, ks[..|ks| - 1], f);
    }
  }

  lemma MigratedValid(s: State, f: Faults)
    requires Valid(s) && IsBranchRef(f.initHead)
    ensures Valid(Migrated(s, f))
  {
    CreateListedFrom(InitialRefs(f), s.refs, SortedKeys(s.refs.Keys), f);
    FromValid(s, CopiedRefs(s.refs, f), f.initHead);
  }

  lemma FromValid(s: State, refs: map<string, Ref>, initHead: string)
    requires Valid(s) && IsBranchRef(initHead)
    requires forall n <- refs :: (n in s.refs && refs[n] == s.refs[n]) || (n == HEAD && refs[n] == Symbolic(initHead))
    ensures Valid(s.(refs := refs))
  {
    assert !IsBranchRef(HEAD) by { assert HEAD[0] != "refs/heads/"[0]; }
  }

  // ---- Which references arrive ----

  /** Nothing fails that the rule on names does not make fail. */
  predicate NoFaults(s: State, f: Faults) {
    && f.refListOk && f.headLookupOk && f.headCreateOk
    && forall n <- s.refs :: n !in f.refLookupFails && n !in f.refCreateFails
  }

  /** None of the names is a directory of `n`. */
  predicate Unblocked(n: string, names: set<string>) {
    forall m <- names :: !DirPrefix(m, n)
  }

  lemma DirPrefixTransitive(a: string, b: string, c: string)
    requires DirPrefix(a, b) && DirPrefix(b, c)
    ensures DirPrefix(a, c) && |a| < |b|
  {
    assert c[..|a| + 1] == b[..|a| + 1];
  }

  /** Of the names that block `n`, one is not blocked itself. */
  lemma {:induction false} ShortestBlocker(n: string, names: set<string>, m: string) returns (least: string)
    requires m in names && DirPrefix(m, n)
    ensures least in names && DirPrefix(least, n) && Unblocked(least, names)
    decreases |m|
  {
    if Unblocked(m, names) {
      least := m;
    } else {
      var k :| k in names && DirPrefix(k, m);
      DirPrefixTransitive(k, m, n);
      least := ShortestBlocker(n, names, k);
    }
  }

  lemma SlashInside(p: string, q: string)
    ensures DirPrefix(p, q) ==> '/' in q && |p| < |q|
  {
    if DirPrefix(p, q) { assert q[|p|] == '/'; }
  }

  lemma HeadUnblocked(names: set<string>)
    ensures Unblocked(HEAD, names)
  {
    forall m <- names ensures !DirPrefix(m, HEAD) { SlashInside(m, HEAD); }
  }

  /** The names the store holds once these were listed, in order, after HEAD was there. */
  function Arrived(names: set<string>): set<string> {
    set n | n in names + {HEAD} && Unblocked(n, names + {HEAD})
  }

  lemma NotAbove(m: string, k: string)
    requires Below(m, k)
    ensures !DirPrefix(k, m) && m != k
  {
    BelowTotal(m, k);
    if DirPrefix(k, m) { DirPrefixBelow(k, m); }
  }

  /** A name that sorts after all before it is created just when none of them is a directory of
      it. */
  lemma CreatedIff(before: set<string>, k: string)
    requires forall m <- before :: Below(m, k)
    ensures PathFree(Arrived(before), k) <==> Unblocked(k, before + {HEAD})
  {
    forall m <- Arrived(before) ensures !DirPrefix(k, m) {
      if m == HEAD {
        HeadUnblocked({k});
      } else if k != HEAD {
        NotAbove(m, k);
      }
    }
    if !Unblocked(k, before + {HEAD}) {
      var m :| m in before + {HEAD} && DirPrefix(m, k);
      var least := ShortestBlocker(k, before + {HEAD}, m);
      assert least in Arrived(before);
    }
  }

  lemma ArrivedNext(before: set<string>, k: string)
    requires forall m <- before :: Below(m, k)
    ensures Arrived(before + {k}) == Arrived(before) + if Unblocked(k, before + {HEAD}) then {k} else {}
  {
    SlashInside(k, k);
    HeadUnblocked({k});
    forall n <- before ensures !DirPrefix(k, n) { NotAbove(n, k); }
    forall n | n in before + {HEAD} ensures Unblocked(n, before + {k} + {HEAD}) <==> Unblocked(n, before + {HEAD}) {}
    assert Unblocked(k, before + {k} + {HEAD}) <==> Unblocked(k, before + {HEAD});
  }

  /** What was listed of a set of names, besides HEAD. */
  predicate IsListing(all: map<string, Ref>, names: set<string>, refs: map<string, Ref>, initHead: string)
    requires names <= refs.Keys
  {
    all.Keys == Arrived(names) && forall n <- all :: all[n] == if n in names then refs[n] else Symbolic(initHead)
  }

  lemma ListingNext(all: map<string, Ref>, names: set<string>, refs: map<string, Ref>, initHead: string, k: string)
    requires names <= refs.Keys && k in refs && IsListing(all, names, refs, initHead)
    requires forall m <- names :: Below(m, k)
    ensures IsListing(if PathFree(all.Keys, k) then all[k := refs[k]] else all, names + {k}, refs, initHead)
  {
    CreatedIff(names, k);
    ArrivedNext(names, k);
  }

  lemma LastAbove(ks: seq<string>, init: seq<string>)
    requires ks != [] && Ascending(ks) && init == ks[..|ks| - 1]
    ensures forall m <- ToSet(init) :: Below(m, ks[|ks| - 1])
  {
    forall m <- ToSet(init) ensures Below(m, ks[|ks| - 1]) {
      var i :| 0 <= i < |init| && init[i] == m;
      assert ks[i] == m;
    }
  }

  lemma {:induction false} ListedExact(s: State, ks: seq<string>, f: Faults)
    requires NoFaults(s, f) && Ascending(ks) && forall k <- ks :: k in s.refs
    ensures ToSet(ks) <= s.refs.Keys
    ensures IsListing(CreateListed(InitialRefs(f), s.refs, ks, f), ToSet(ks), s.refs, f.initHead)
  {
    if ks == [] {
      HeadUnblocked({HEAD});
      assert Arrived({}) == {HEAD};
    } else {
      var init, k := ks[..|ks| - 1], ks[|ks| - 1];
      ListedExact(s, init, f);
      ToSetSnoc(ks);
      LastAbove(ks, init);
      ListingNext(CreateListed(InitialRefs(f), s.refs, init, f), ToSet(init), s.refs, f.initHead, k);
    }
  }

  /** The references that survive: those whose name no other name is a directory of. */
  function Surviving(s: State): map<string, Ref> {
    map n | n in s.refs && Unblocked(n, s.refs.Keys + {HEAD}) :: s.refs[n]
  }

  /** Without other faults exactly the references of unblocked names arrive, and HEAD; only a
      missing HEAD is replaced by the initial one. */
  lemma CopiedExact(s: State, f: Faults)
    requires NoFaults(s, f)
    ensures CopiedRefs(s.refs, f) == if HEAD in s.refs then Surviving(s) else Surviving(s)[HEAD := Symbolic(f.initHead)]
  {
    SortedKeysSet(s.refs.Keys);
    ListedExact(s, SortedKeys(s.refs.Keys), f);
    ListingIs(s, CreateAll(InitialRefs(f), s.refs, f), f);
  }

  lemma ListingIs(s: State, all: map<string, Ref>, f: Faults)
    requires IsListing(all, s.refs.Keys, s.refs, f.initHead) && f.headLookupOk && f.headCreateOk
    ensures CreateHead(all, s.refs, f) == all
    ensures all == if HEAD in s.refs then Surviving(s) else Surviving(s)[HEAD := Symbolic(f.initHead)]
  {
    HeadUnblocked(s.refs.Keys + {HEAD});
    HeadUnblocked(all.Keys);
  }

  /** Migration keeps every reference just when no name, HEAD included, is a directory of
      another. */
  lemma KeepsAllRefsIff(s: State, f: Faults)
    requires NoFaults(s, f)
    ensures (forall n <- s.refs :: n in Migrated(s, f).refs && Migrated(s, f).refs[n] == s.refs[n]) <==>
            forall n <- s.refs :: Unblocked(n, s.refs.Keys + {HEAD})
    ensures forall n <- s.refs :: n in Migrated(s, f).refs <==> Unblocked(n, s.refs.Keys + {HEAD})
  {
    CopiedExact(s, f);
    HeadUnblocked(s.refs.Keys + {HEAD});
  }

  // ---- With faults ----

  /** A listed reference is created unless looking it up or creating it fails. */
  predicate Works(n: string, f: Faults) {
    n !in f.refLookupFails && n !in f.refCreateFails
  }

  /** What the names so far have become. */
  predicate ListedSoFar(all: map<string, Ref>, names: set<string>, refs: map<string, Ref>, f: Faults) {
    && HEAD in all && all.Keys <= names + {HEAD} && names <= refs.Keys
    && all[HEAD] == (if HEAD in names && Works(HEAD, f) then refs[HEAD] else Symbolic(f.initHead))
    && (forall n <- names | n != HEAD :: n in all <==> Works(n, f) && Unblocked(n, all.Keys))
    && (forall n <- all | n != HEAD :: all[n] == refs[n])
  }

  lemma ListedFree(all: map<string, Ref>, names: set<string>, refs: map<string, Ref>, f: Faults, k: string)
    requires ListedSoFar(all, names, refs, f) && forall m <- names :: Below(m, k)
    ensures PathFree(all.Keys, k) <==> Unblocked(k, all.Keys)
    ensures k != HEAD ==> k !in all
  {
    forall m <- all ensures !DirPrefix(k, m) {
      if m == HEAD {
        HeadUnblocked({k});
      } else {
        NotAbove(m, k);
      }
    }
    if k in all && k != HEAD { NotAbove(k, k); }
  }

  lemma ListedOne(all: map<string, Ref>, names: set<string>, refs: map<string, Ref>, f: Faults, k: string)
    requires ListedSoFar(all, names, refs, f) && k in refs && forall m <- names :: Below(m, k)
    ensures ListedSoFar(CreateRef(all, refs, k, f), names + {k}, refs, f)
  {
    var next := CreateRef(all, refs, k, f);
    ListedFree(all, names, refs, f, k);
    HeadUnblocked(all.Keys);
    SlashInside(k, k);
    forall n <- names + {k} | n != HEAD ensures n in next <==> Works(n, f) && Unblocked(n, next.Keys) {
      if n != k {
        NotAbove(n, k);
        assert Unblocked(n, next.Keys) <==> Unblocked(n, all.Keys);
      }
    }
    if HEAD in names && k == HEAD { NotAbove(HEAD, k); }
  }

  lemma {:induction false} ListedWithFaults(refs: map<string, Ref>, ks: seq<string>, f: Faults)
    requires Ascending(ks) && forall k <- ks :: k in refs
    ensures ListedSoFar(CreateListed(InitialRefs(f), refs, ks, f), ToSet(ks), refs, f)
  {
    if ks != [] {
      var init, k := ks[..|ks| - 1], ks[|ks| - 1];
      ListedWithFaults(refs, init, f);
      ToSetSnoc(ks);
      LastAbove(ks, init);
      ListedOne(CreateListed(InitialRefs(f), refs, init, f), ToSet(init), refs, f, k);
    }
  }

  /** Whatever fails, a reference arrives just when its own lookup and creation work and nothing that
      arrives is a directory of it; none arrives, except HEAD, when they cannot be listed. HEAD is
      always there: the old one if it was listed or created by itself, or else the initial one. */
  lemma ArrivesIff(refs: map<string, Ref>, f: Faults)
    ensures var all := CopiedRefs(refs, f);
            && "HEAD" in all
            && all["HEAD"] == (if "HEAD" in refs && ((f.refListOk && Works("HEAD", f))
                                                     || (f.headLookupOk && f.headCreateOk))
                               then refs["HEAD"] else Symbolic(f.initHead))
            && (forall n | n != "HEAD" ::
                  n in all <==> f.refListOk && n in refs && Works(n, f) && forall m <- all :: !(m + "/" <= n))
            && (forall n <- all | n != "HEAD" :: all[n] == refs[n])
  {
    var listed := CreateAll(InitialRefs(f), refs, f);
    SortedKeysSet(refs.Keys);
    if f.refListOk {
      ListedWithFaults(refs, SortedKeys(refs.Keys), f);
      WithHead(listed, refs.Keys, refs, f);
    } else {
      WithHead(listed, {}, refs, f);
    }
  }

  lemma WithHead(listed: map<string, Ref>, names: set<string>, refs: map<string, Ref>, f: Faults)
    requires ListedSoFar(listed, names, refs, f)
    ensures PathFree(listed.Keys, HEAD)
    ensures var all := CreateHead(listed, refs, f);
            && all.Keys == listed.Keys && (forall n <- all | n != HEAD :: all[n] == listed[n])
            && all[HEAD] == (if HEAD in refs && f.headLookupOk && f.headCreateOk then refs[HEAD] else listed[HEAD])
            && forall n :: Unblocked(n, all.Keys) <==> forall m <- all :: !(m + "/" <= n)
  {
    HeadUnblocked(listed.Keys);
    forall m <- listed ensures !DirPrefix(HEAD, m) {
      if m == HEAD { SlashInside(HEAD, HEAD); }
    }
  }

  // ---- What else is kept ----

  lemma SameHeadSameReads(s: State, s': State, path: string)
    requires HeadId(s') == HeadId(s) && s'.odb == s.odb && s'.work == s.work
    ensures ReadFile(s', path) == ReadFile(s, path)
  {
  }

  /** HEAD is lost just when the name it stands for is blocked. */
  lemma HeadSurvivesIff(s: State, s': State, initHead: string)
    requires Valid(s) && Valid(s') && IsBranchRef(initHead)
    requires HeadId(s).Some? || (HEAD !in s.refs && NoCommits(s))
    requires s'.refs == if HEAD in s.refs then Surviving(s) else Surviving(s)[HEAD := Symbolic(initHead)]
    ensures HeadId(s') == HeadId(s) <==> (HeadId(s).Some? ==> Unblocked(HeadTarget(s), s.refs.Keys + {HEAD}))
  {
    HeadIsCommit(s);
    HeadIsCommit(s');
    HeadUnblocked(s.refs.Keys + {HEAD});
    assert initHead != HEAD by { assert initHead[..|"refs/heads/"|] == "refs/heads/"; assert initHead[0] != HEAD[0]; }
  }

  /** Migration of a repository whose HEAD is born or that has no commit yet, where nothing else
      fails: objects and files stay, exactly the references of unblocked names survive, and HEAD
      and every read are as before just when the reference HEAD stands for survives. */
  lemma MigrationRefines(s: State, f: Faults)
    requires Valid(s) && IsBranchRef(f.initHead) && NoFaults(s, f)
    requires HeadId(s).Some? || (HEAD !in s.refs && NoCommits(s))
    ensures var s' := Migrated(s, f);
            && Valid(s') && s'.odb == s.odb && s'.work == s.work && s'.onDisk
            && s'.refs == (if HEAD in s.refs then Surviving(s) else Surviving(s)[HEAD := Symbolic(f.initHead)])
            && (HeadId(s') == HeadId(s) <==> (HeadId(s).Some? ==> Unblocked(HeadTarget(s), s.refs.Keys + {HEAD})))
            && (HeadId(s') == HeadId(s) ==> forall path :: ReadFile(s', path) == ReadFile(s, path))
  {
    MigratedValid(s, f);
    CopiedExact(s, f);
    var s' := Migrated(s, f);
    HeadSurvivesIff(s, s', f.initHead);
    forall path | HeadId(s') == HeadId(s) ensures ReadFile(s', path) == ReadFile(s, path) {
      SameHeadSameReads(s, s', path);
    }
  }

  /** At every moment of every run of an in-memory repository: when no reference name is a
      directory of another and nothing else fails, migration keeps all references, HEAD, all
      objects and every read. */
  lemma MemoryMigration(ws: seq<World>, acts: seq<Action>, i: nat, f: Faults)
    requires MemoryRun(ws, acts) && i < |ws| && IsBranchRef(f.initHead) && NoFaults(ws[i].repo, f)
    requires forall n <- ws[i].repo.refs :: Unblocked(n, ws[i].repo.refs.Keys + {HEAD})
    ensures var s, s' := ws[i].repo, Migrated(ws[i].repo, f);
            && Valid(s') && s'.odb == s.odb && s'.work == s.work && HeadId(s') == HeadId(s)
            && s'.refs == (if HEAD in s.refs then s.refs else s.refs[HEAD := Symbolic(f.initHead)])
            && forall path :: ReadFile(s', path) == ReadFile(s, path)
  {
    MemoryRunBorn(ws, acts, i);
    RunValid(ws, acts, i);
    var s := ws[i].repo;
    HeadIsCommit(s);
    MigrationRefines(s, f);
    AllSurvive(s);
    HeadUnblocked(s.refs.Keys + {HEAD});
  }

  lemma AllSurvive(s: State)
    requires forall n <- s.refs :: Unblocked(n, s.refs.Keys + {HEAD})
    ensures Surviving(s) == s.refs
  {
  }
}
