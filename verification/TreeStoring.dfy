/** What writing a directory puts into the store, also when it stops at an unacceptable name. */
module TreeStoring {
  import opened Text
  import opened Paths
  import opened Objects
  import opened TreeBuilding
  import opened RepositoryState

  predicate BlobNamesOk(d: Dir) {
    forall n <- d.blobs :: EntryNameOk(n)
  }

  predicate Subdirs(d: Dir, names: seq<string>) {
    forall n <- names :: n in d.subdirs
  }

  /** These subdirectories can be written and inserted. */
  predicate SubdirsOk(d: Dir, names: seq<string>)
    requires Subdirs(d, names)
  {
    forall n <- names :: EntryNameOk(n) && NamesOk(d.subdirs[n])
  }

  /** Subdirectories are written in order, up to and including the first that fails. */
  function StoredBelow(d: Dir, names: seq<string>): set<Object>
    requires Subdirs(d, names)
    decreases d, |names|
  {
    if names == [] then {}
    else
      var first, last := names[..|names| - 1], names[|names| - 1];
      StoredBelow(d, first) + if SubdirsOk(d, first) then Stored(d.subdirs[last]) else {}
  }

  function Stored(d: Dir): set<Object>
    decreases d, |d.subdirs| + 1
  {
    var names := SortedKeys(d.subdirs.Keys);
    if !BlobNamesOk(d) then {} else StoredBelow(d, names) + if SubdirsOk(d, names) then {Build(d)} else {}
  }

  lemma StoredIs(d: Dir, names: seq<string>)
    requires names == SortedKeys(d.subdirs.Keys)
    ensures Subdirs(d, names) && (NamesOk(d) <==> BlobNamesOk(d) && SubdirsOk(d, names))
    ensures !BlobNamesOk(d) ==> Stored(d) == {}
    ensures BlobNamesOk(d) && !SubdirsOk(d, names) ==> Stored(d) == StoredBelow(d, names)
    ensures NamesOk(d) ==> Stored(d) == StoredBelow(d, names) + {Build(d)}
    ensures ToSet(names) == d.subdirs.Keys && |names| == |d.subdirs|
  {
    SortedKeysSet(d.subdirs.Keys);
    if SubdirsOk(d, names) {
      forall n <- d.subdirs ensures EntryNameOk(n) && NamesOk(d.subdirs[n]) {
        assert n in names;
      }
    }
  }

  lemma StoredBelowNext(d: Dir, names: seq<string>, i: nat)
    requires Subdirs(d, names) && i < |names|
    ensures Subdirs(d, names[..i]) && Subdirs(d, names[..i + 1])
    ensures StoredBelow(d, names[..i + 1]) ==
            StoredBelow(d, names[..i]) + if SubdirsOk(d, names[..i]) then Stored(d.subdirs[names[i]]) else {}
    ensures SubdirsOk(d, names[..i + 1]) <==>
            SubdirsOk(d, names[..i]) && EntryNameOk(names[i]) && NamesOk(d.subdirs[names[i]])
  {
    SliceNext(names, i);
    assert names[..i + 1][..i] == names[..i];
  }

  lemma {:induction false} StoredStops(d: Dir, names: seq<string>, i: nat)
    requires Subdirs(d, names) && i <= |names| && !SubdirsOk(d, names[..i])
    ensures StoredBelow(d, names) == StoredBelow(d, names[..i]) && !SubdirsOk(d, names)
    decreases |names| - i
  {
    if i < |names| {
      StoredBelowNext(d, names, i);
      StoredStops(d, names, i + 1);
    } else {
      SliceAll(names);
    }
  }

  ghost predicate BlobsStored(d: Dir, odb: set<Object>) {
    && (forall n <- d.blobs :: d.blobs[n] in odb)
    && (forall n <- d.subdirs :: BlobsStored(d.subdirs[n], odb))
  }

  lemma {:induction false} InsertStored(d: Dir, cs: seq<string>, b: Object, odb: set<Object>)
    requires |cs| >= 1 && BlobsStored(d, odb) && b in odb
    ensures BlobsStored(InsertPath(d, cs, b), odb)
    decreases cs
  {
    if |cs| > 1 {
      InsertStored(if cs[0] in d.subdirs then d.subdirs[cs[0]] else EMPTY_DIR, cs[1..], b, odb);
    }
  }

  lemma {:induction false} FillStored(ks: seq<string>, m: map<string, Object>, odb: set<Object>)
    requires forall k <- ks :: k in m && m[k] in odb
    ensures BlobsStored(Fill(ks, m), odb)
  {
    if ks != [] {
      var k := ks[|ks| - 1];
      FillStored(ks[..|ks| - 1], m, odb);
      InsertStored(Fill(ks[..|ks| - 1], m), Split(k), m[k], odb);
    }
  }

  lemma {:induction false} StoredGrows(d: Dir, odb: set<Object>, more: set<Object>)
    requires BlobsStored(d, odb) && odb <= more
    ensures BlobsStored(d, more)
  {
    forall n <- d.subdirs ensures BlobsStored(d.subdirs[n], more) { StoredGrows(d.subdirs[n], odb, more); }
  }

  // ---- What is left, directory by directory ----

  function DirAt(d: Dir, cs: seq<string>): Option<Dir> {
    if cs == [] then Some(d) else if cs[0] in d.subdirs then DirAt(d.subdirs[cs[0]], cs[1..]) else None
  }

  predicate SubdirOk(d: Dir, n: string) {
    n in d.subdirs && EntryNameOk(n) && NamesOk(d.subdirs[n])
  }

  /** Everything that sorts before this name can be written. */
  predicate EarlierOk(d: Dir, names: seq<string>, n: string) {
    forall m <- names | Below(m, n) :: SubdirOk(d, m)
  }

  lemma EarlierInFirst(d: Dir, names: seq<string>, n: string)
    requires names != [] && Ascending(names) && n in names[..|names| - 1]
    ensures EarlierOk(d, names, n) <==> EarlierOk(d, names[..|names| - 1], n)
  {
    var first, last := names[..|names| - 1], names[|names| - 1];
    var j :| 0 <= j < |first| && first[j] == n;
    assert Below(names[j], last);
    BelowTotal(n, last);
    assert names == first + [last];
  }

  lemma EarlierThanLast(d: Dir, names: seq<string>)
    requires names != [] && Ascending(names) && Subdirs(d, names)
    ensures EarlierOk(d, names, names[|names| - 1]) <==> SubdirsOk(d, names[..|names| - 1])
  {
    var first, last := names[..|names| - 1], names[|names| - 1];
    BelowTotal(last, last);
    assert names == first + [last];
    forall m <- first ensures Below(m, last) {
      var j :| 0 <= j < |first| && first[j] == m;
      assert Below(names[j], last);
    }
    assert SubdirsOk(d, first) <==> forall m <- first :: SubdirOk(d, m);
  }

  predicate FromSubdir(d: Dir, names: seq<string>, n: string, u: Object) {
    n in d.subdirs && EarlierOk(d, names, n) && u in Stored(d.subdirs[n])
  }

  lemma StoredBelowLast(d: Dir, names: seq<string>, u: Object)
    requires Subdirs(d, names) && names != [] && Ascending(names)
    ensures u in StoredBelow(d, names) <==>
            u in StoredBelow(d, names[..|names| - 1]) || FromSubdir(d, names, names[|names| - 1], u)
  {
    EarlierThanLast(d, names);
  }

  lemma {:induction false} StoredFrom(d: Dir, names: seq<string>, n: string, u: Object)
    requires Subdirs(d, names) && Ascending(names) && n in names && FromSubdir(d, names, n, u)
    ensures u in StoredBelow(d, names)
  {
    StoredBelowLast(d, names, u);
    if n != names[|names| - 1] {
      InFirst(names, n);
      EarlierInFirst(d, names, n);
      StoredFrom(d, names[..|names| - 1], n, u);
    }
  }

  lemma InFirst(names: seq<string>, n: string)
    requires n in names && n != names[|names| - 1]
    ensures n in names[..|names| - 1]
  {
  }

  lemma {:induction false} ComesFrom(d: Dir, names: seq<string>, u: Object) returns (n: string)
    requires Subdirs(d, names) && Ascending(names) && u in StoredBelow(d, names)
    ensures n in names && FromSubdir(d, names, n, u)
  {
    n := names[|names| - 1];
    StoredBelowLast(d, names, u);
    if u in StoredBelow(d, names[..|names| - 1]) {
      n := ComesFrom(d, names[..|names| - 1], u);
      EarlierInFirst(d, names, n);
    }
  }

  /** Before a directory is written, on every level above it the files have acceptable names and
      everything that sorts before it was written. */
  predicate Reached(d: Dir, cs: seq<string>) {
    cs == [] ||
    (&& BlobNamesOk(d) && cs[0] in d.subdirs
     && AllEarlierOk(d, cs[0]) && Reached(d.subdirs[cs[0]], cs[1..]))
  }

  /** The tree of this directory is written. */
  predicate WrittenAt(d: Dir, cs: seq<string>, u: Object) {
    Reached(d, cs) && DirAt(d, cs).Some? && NamesOk(DirAt(d, cs).value) && u == Build(DirAt(d, cs).value)
  }

  lemma WrittenBelow(d: Dir, n: string, cs: seq<string>, all: seq<string>, u: Object)
    requires all == [n] + cs && n in d.subdirs
    ensures WrittenAt(d, all, u) <==>
            BlobNamesOk(d) && AllEarlierOk(d, n) && WrittenAt(d.subdirs[n], cs, u)
  {
    assert all[1..] == cs && all[0] == n;
    assert Reached(d, all) <==> BlobNamesOk(d) && AllEarlierOk(d, n) && Reached(d.subdirs[n], cs);
    assert DirAt(d, all) == DirAt(d.subdirs[n], cs);
  }

  /** Everything in the directory that sorts before this name can be written. */
  predicate AllEarlierOk(d: Dir, n: string) {
    forall m <- d.subdirs | Below(m, n) :: SubdirOk(d, m)
  }

  lemma EarlierOkAll(d: Dir, names: seq<string>, n: string)
    requires names == SortedKeys(d.subdirs.Keys)
    ensures EarlierOk(d, names, n) <==> AllEarlierOk(d, n)
  {
  }

  lemma WrittenHere(d: Dir, u: Object)
    ensures WrittenAt(d, [], u) <==> NamesOk(d) && u == Build(d)
  {
  }

  lemma HeadAndTail(cs: seq<string>)
    requires cs != []
    ensures cs == [cs[0]] + cs[1..]
  {
  }

  lemma {:induction false} WrittenIsStored(d: Dir, cs: seq<string>, u: Object)
    requires WrittenAt(d, cs, u)
    ensures u in Stored(d)
    decreases cs
  {
    var names := SortedKeys(d.subdirs.Keys);
    StoredIs(d, names);
    if cs == [] {
      WrittenHere(d, u);
    } else {
      HeadAndTail(cs);
      WrittenBelow(d, cs[0], cs[1..], cs, u);
      WrittenIsStored(d.subdirs[cs[0]], cs[1..], u);
      EarlierOkAll(d, names, cs[0]);
      StoredFrom(d, names, cs[0], u);
    }
  }

  lemma {:induction false} StoredIsWritten(d: Dir, u: Object) returns (cs: seq<string>)
    requires u in Stored(d)
    ensures WrittenAt(d, cs, u)
    decreases d
  {
    var names := SortedKeys(d.subdirs.Keys);
    StoredIs(d, names);
    WrittenHere(d, u);
    if NamesOk(d) && u == Build(d) {
      cs := [];
    } else {
      var n := ComesFrom(d, names, u);
      EarlierOkAll(d, names, n);
      var below := StoredIsWritten(d.subdirs[n], u);
      cs := [n] + below;
      WrittenBelow(d, n, below, cs, u);
    }
  }

  /** Writing a directory leaves exactly the trees of the directories that were reached and whose
      names are acceptable throughout. */
  lemma StoredExact(d: Dir, u: Object)
    ensures u in Stored(d) <==> exists cs :: WrittenAt(d, cs, u)
  {
    if u in Stored(d) {
      var cs := StoredIsWritten(d, u);
    }
    if cs :| WrittenAt(d, cs, u) {
      WrittenIsStored(d, cs, u);
    }
  }

  /** What writing the first subdirectories of a directory adds to the store. */
  function WrittenTrees(d: Dir, names: set<string>): set<Object> {
    set n, u | n in names && n in d.subdirs && u in Subtrees(Build(d.subdirs[n])) :: u
  }

  /** The builder after the blobs and some subdirectories have been inserted. */
  function Inserted(d: Dir, names: set<string>): map<string, Object> {
    d.blobs + map n | n in names && n in d.subdirs :: Build(d.subdirs[n])
  }

  lemma InsertedEnds(d: Dir)
    ensures Inserted(d, {}) == d.blobs && Tree(Inserted(d, d.subdirs.Keys)) == Build(d)
  {
    assert Inserted(d, d.subdirs.Keys) == Build(d).entries;
  }

  lemma InsertedStep(d: Dir, names: set<string>, n: string)
    requires n in d.subdirs
    ensures Inserted(d, names + {n}) == Inserted(d, names)[n := Build(d.subdirs[n])]
  {
  }

  lemma WrittenStep(d: Dir, names: set<string>, n: string)
    requires n in d.subdirs
    ensures WrittenTrees(d, names + {n}) == WrittenTrees(d, names) + Subtrees(Build(d.subdirs[n]))
    ensures Build(d.subdirs[n]) in Subtrees(Build(d.subdirs[n]))
  {
  }

  lemma SubtreesOfBuild(d: Dir)
    requires Populated(d)
    ensures Subtrees(Build(d)) == WrittenTrees(d, d.subdirs.Keys) + {Build(d)}
  {
    var entries := Build(d).entries;
    forall n <- entries ensures entries[n] == if n in d.subdirs then Build(d.subdirs[n]) else d.blobs[n] {}
    SubtreesWithin(d, entries);
    SubtreesCover(d, entries);
  }

  lemma SubtreesWithin(d: Dir, entries: map<string, Object>)
    requires forall n <- entries :: n in d.subdirs || entries[n].Blob?
    requires forall n <- entries :: n in d.subdirs ==> entries[n] == Build(d.subdirs[n])
    ensures forall u <- Subtrees(Tree(entries)) :: u == Tree(entries) || u in WrittenTrees(d, d.subdirs.Keys)
  {
    forall u <- Subtrees(Tree(entries)) | u != Tree(entries) ensures u in WrittenTrees(d, d.subdirs.Keys) {
      var n :| n in entries && u in Subtrees(entries[n]);
      assert n in d.subdirs;
    }
  }

  lemma SubtreesCover(d: Dir, entries: map<string, Object>)
    requires forall n <- d.subdirs :: n in entries && entries[n] == Build(d.subdirs[n])
    ensures forall u <- WrittenTrees(d, d.subdirs.Keys) :: u in Subtrees(Tree(entries))
  {
    forall u <- WrittenTrees(d, d.subdirs.Keys) ensures u in Subtrees(Tree(entries)) {
      var n :| n in d.subdirs && u in Subtrees(Build(d.subdirs[n]));
      assert n in entries;
    }
  }

  lemma {:induction false} StoredBelowOk(d: Dir, names: seq<string>)
    requires Populated(d) && Subdirs(d, names) && SubdirsOk(d, names)
    ensures StoredBelow(d, names) == WrittenTrees(d, ToSet(names))
    decreases d, |names|
  {
    if names != [] {
      var first, last := names[..|names| - 1], names[|names| - 1];
      StoredBelowOk(d, first);
      StoredOk(d.subdirs[last]);
      ToSetSnoc(names);
      WrittenStep(d, ToSet(first), last);
    }
  }

  /** A directory that can be written leaves exactly its tree and the trees below it. */
  lemma {:induction false} StoredOk(d: Dir)
    requires Populated(d) && NamesOk(d)
    ensures Stored(d) == Subtrees(Build(d))
    decreases d, |d.subdirs| + 1
  {
    var names := SortedKeys(d.subdirs.Keys);
    StoredIs(d, names);
    StoredBelowOk(d, names);
    SubtreesOfBuild(d);
  }

  ghost predicate OnlyTrees(os: set<Object>) {
    forall o <- os :: o.Tree?
  }

  lemma BuildClosed(d: Dir, odb: set<Object>)
    requires Closed(odb) && NamesOk(d) && Populated(d) && BlobsStored(d, odb)
    requires forall n <- d.subdirs :: Build(d.subdirs[n]) in odb
    ensures WfTree(Build(d)) && Closed(odb + {Build(d)})
  {
    BuildWf(d);
    var t := Build(d);
    forall c <- Children(t) ensures c in odb {
      var n :| n in t.entries && t.entries[n] == c;
    }
    assert odb <= odb + {t};
  }

  /** What a directory leaves are trees whose parts are stored as well. */
  lemma {:induction false} StoredClosed(d: Dir, odb: set<Object>)
    requires Closed(odb) && Populated(d) && BlobsStored(d, odb)
    ensures Closed(odb + Stored(d)) && OnlyTrees(Stored(d))
    ensures NamesOk(d) ==> Build(d) in Stored(d)
    decreases d, |d.subdirs| + 1
  {
    var names := SortedKeys(d.subdirs.Keys);
    StoredIs(d, names);
    if BlobNamesOk(d) {
      StoredBelowClosed(d, odb, names);
      TopClosed(d, odb, names, StoredBelow(d, names), Stored(d));
    } else {
      assert odb + {} == odb;
    }
  }

  lemma TopClosed(d: Dir, odb: set<Object>, names: seq<string>, below: set<Object>, all: set<Object>)
    requires Closed(odb + below) && OnlyTrees(below) && Populated(d) && BlobsStored(d, odb)
    requires ToSet(names) == d.subdirs.Keys && Subdirs(d, names)
    requires SubdirsOk(d, names) ==> NamesOk(d) && forall n <- names :: Build(d.subdirs[n]) in below
    requires all == if SubdirsOk(d, names) then below + {Build(d)} else below
    ensures Closed(odb + all) && OnlyTrees(all) && (SubdirsOk(d, names) ==> Build(d) in all)
  {
    if SubdirsOk(d, names) {
      BuiltClosed(d, odb, names, below);
      Regroup(odb, below, {Build(d)});
    }
  }

  lemma BuiltClosed(d: Dir, odb: set<Object>, names: seq<string>, below: set<Object>)
    requires Closed(odb + below) && Populated(d) && BlobsStored(d, odb) && NamesOk(d)
    requires ToSet(names) == d.subdirs.Keys && Subdirs(d, names) && forall n <- names :: Build(d.subdirs[n]) in below
    ensures Closed(odb + below + {Build(d)})
  {
    forall n <- d.subdirs ensures Build(d.subdirs[n]) in odb + below {
      assert n in ToSet(names);
    }
    StoredGrows(d, odb, odb + below);
    BuildClosed(d, odb + below);
  }

  lemma Regroup(a: set<Object>, b: set<Object>, c: set<Object>)
    ensures a + b + c == a + (b + c)
  {
  }

  lemma {:induction false} StoredBelowClosed(d: Dir, odb: set<Object>, names: seq<string>)
    requires Closed(odb) && Populated(d) && BlobsStored(d, odb) && Subdirs(d, names)
    ensures Closed(odb + StoredBelow(d, names)) && OnlyTrees(StoredBelow(d, names))
    ensures SubdirsOk(d, names) ==> forall n <- names :: Build(d.subdirs[n]) in StoredBelow(d, names)
    decreases d, |names|
  {
    if names == [] {
      assert odb + {} == odb;
    } else {
      var first, sub := names[..|names| - 1], d.subdirs[names[|names| - 1]];
      StoredBelowClosed(d, odb, first);
      if SubdirsOk(d, first) {
        StoredGrows(sub, odb, odb + StoredBelow(d, first));
        StoredClosed(sub, odb + StoredBelow(d, first));
        Regroup(odb, StoredBelow(d, first), Stored(sub));
        OneMoreBuilt(d, names, StoredBelow(d, first), Stored(sub));
      } else {
        assert StoredBelow(d, first) + {} == StoredBelow(d, first);
      }
    }
  }

  lemma OneMoreBuilt(d: Dir, names: seq<string>, before: set<Object>, more: set<Object>)
    requires names != [] && Subdirs(d, names)
    requires var first := names[..|names| - 1];
             SubdirsOk(d, first) ==> forall n <- first :: Build(d.subdirs[n]) in before
    requires var last := names[|names| - 1]; NamesOk(d.subdirs[last]) ==> Build(d.subdirs[last]) in more
    ensures SubdirsOk(d, names) ==> forall n <- names :: Build(d.subdirs[n]) in before + more
  {
    assert names == names[..|names| - 1] + [names[|names| - 1]];
  }

  // ---- The loop over the subdirectories ----

  /** The first `i` are written and in the builder. */
  ghost predicate WritingTree(d: Dir, names: seq<string>, i: nat, builder: map<string, Object>,
                              start: set<Object>, odb: set<Object>) {
    && Subdirs(d, names) && i <= |names| && SubdirsOk(d, names[..i])
    && builder == Inserted(d, ToSet(names[..i])) && odb == start + StoredBelow(d, names[..i])
  }

  lemma NothingWritten(d: Dir, names: seq<string>, odb: set<Object>)
    requires Subdirs(d, names)
    ensures WritingTree(d, names, 0, d.blobs, odb, odb)
  {
    SliceAll(names);
    InsertedEnds(d);
    assert odb + {} == odb;
  }

  /** The store and the builder after the next one; it fails when its name or one in it is
      unacceptable. */
  lemma OneMoreWritten(d: Dir, names: seq<string>, i: nat, builder: map<string, Object>,
                       start: set<Object>, odb: set<Object>, sub: Dir)
    requires WritingTree(d, names, i, builder, start, odb) && i < |names| && sub == d.subdirs[names[i]]
    ensures Subdirs(d, names[..i + 1]) && odb + Stored(sub) == start + StoredBelow(d, names[..i + 1])
    ensures SubdirsOk(d, names[..i + 1]) <==> EntryNameOk(names[i]) && NamesOk(sub)
    ensures EntryNameOk(names[i]) && NamesOk(sub) ==>
              WritingTree(d, names, i + 1, builder[names[i] := Build(sub)], start, odb + Stored(sub))
  {
    StoredBelowNext(d, names, i);
    Regroup(start, StoredBelow(d, names[..i]), Stored(sub));
    SliceNext(names, i);
    InsertedStep(d, ToSet(names[..i]), names[i]);
  }

  lemma AllWritten(d: Dir, names: seq<string>, builder: map<string, Object>, start: set<Object>, odb: set<Object>)
    requires names == SortedKeys(d.subdirs.Keys) && BlobNamesOk(d)
    requires WritingTree(d, names, |names|, builder, start, odb)
    ensures NamesOk(d) && Tree(builder) == Build(d) && odb + {Build(d)} == start + Stored(d)
  {
    SliceAll(names);
    StoredIs(d, names);
    InsertedEnds(d);
    Regroup(start, StoredBelow(d, names), {Build(d)});
  }
}
