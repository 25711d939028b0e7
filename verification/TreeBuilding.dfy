/** From a flat map of paths to a nested tree and back: the heart of committing from, and
    checking out into, a working map that has no directories. */
module TreeBuilding {
  import opened Text
  import opened Paths
  import opened Objects

  /** One directory under construction. The same name may be in both maps. */
  datatype Dir = Dir(blobs: map<string, Object>, subdirs: map<string, Dir>)

  const EMPTY_DIR := Dir(map[], map[])

  /** Walks down the directories of `cs`, creating the missing ones, and puts the blob there. */
  function InsertPath(d: Dir, cs: seq<string>, b: Object): Dir
    requires |cs| >= 1
    decreases cs
  {
    if |cs| == 1 then d.(blobs := d.blobs[cs[0] := b])
    else
      var sub := if cs[0] in d.subdirs then d.subdirs[cs[0]] else EMPTY_DIR;
      d.(subdirs := d.subdirs[cs[0] := InsertPath(sub, cs[1..], b)])
  }

  /** The directories holding the paths `ks` of `m`, inserted in this order. */
  function Fill(ks: seq<string>, m: map<string, Object>): Dir
    requires forall k <- ks :: k in m
  {
    if ks == [] then EMPTY_DIR
    else
      var k := ks[|ks| - 1];
      InsertPath(Fill(ks[..|ks| - 1], m), Split(k), m[k])
  }

  /** The tree a directory is written as: a subdirectory replaces a blob of the same name. */
  function Build(d: Dir): Object {
    Tree(map n | n in d.blobs.Keys + d.subdirs.Keys ::
           if n in d.subdirs then Build(d.subdirs[n]) else d.blobs[n])
  }

  function TreeOf(m: map<string, Object>): Object {
    Build(Fill(SortedKeys(m.Keys), m))
  }

  // ---- What a directory holds ----

  function DirBlob(d: Dir, cs: seq<string>): Option<Object>
    requires |cs| >= 1
  {
    if |cs| == 1 then if cs[0] in d.blobs then Some(d.blobs[cs[0]]) else None
    else if cs[0] in d.subdirs then DirBlob(d.subdirs[cs[0]], cs[1..])
    else None
  }

  predicate HasDir(d: Dir, cs: seq<string>) {
    cs == [] || (cs[0] in d.subdirs && HasDir(d.subdirs[cs[0]], cs[1..]))
  }

  predicate NamesOk(d: Dir) {
    && (forall n <- d.blobs :: EntryNameOk(n))
    && (forall n <- d.subdirs :: EntryNameOk(n) && NamesOk(d.subdirs[n]))
  }

  /** No directory below this one is empty, and the leaves are blobs. */
  predicate Populated(d: Dir) {
    && (forall n <- d.blobs :: d.blobs[n].Blob?)
    && (forall n <- d.subdirs :: d.subdirs[n] != EMPTY_DIR && Populated(d.subdirs[n]))
  }

  lemma {:induction false} InsertBlob(d: Dir, cs: seq<string>, b: Object, xs: seq<string>)
    requires |cs| >= 1 && |xs| >= 1
    ensures DirBlob(InsertPath(d, cs, b), xs) == if xs == cs then Some(b) else DirBlob(d, xs)
    decreases cs
  {
    if |cs| > 1 && |xs| > 1 && xs[0] == cs[0] {
      var sub := if cs[0] in d.subdirs then d.subdirs[cs[0]] else EMPTY_DIR;
      InsertBlob(sub, cs[1..], b, xs[1..]);
      assert xs == [xs[0]] + xs[1..] && cs == [cs[0]] + cs[1..];
    }
  }

  lemma {:induction false} InsertDir(d: Dir, cs: seq<string>, b: Object, xs: seq<string>)
    requires |cs| >= 1
    ensures HasDir(InsertPath(d, cs, b), xs) <==> HasDir(d, xs) || xs < cs
    decreases cs
  {
    if xs != [] && |cs| > 1 && xs[0] == cs[0] {
      var sub := if cs[0] in d.subdirs then d.subdirs[cs[0]] else EMPTY_DIR;
      InsertDir(sub, cs[1..], b, xs[1..]);
      assert xs == [xs[0]] + xs[1..] && cs == [cs[0]] + cs[1..];
      assert xs < cs <==> xs[1..] < cs[1..];
    }
  }

  predicate GoodNames(cs: seq<string>) {
    forall c <- cs :: EntryNameOk(c)
  }

  lemma {:induction false} InsertNames(d: Dir, cs: seq<string>, b: Object)
    requires |cs| >= 1
    ensures NamesOk(InsertPath(d, cs, b)) <==> NamesOk(d) && GoodNames(cs)
    decreases cs
  {
    if |cs| == 1 {
      assert InsertPath(d, cs, b).blobs.Keys == d.blobs.Keys + {cs[0]};
      assert GoodNames(cs) <==> EntryNameOk(cs[0]);
    } else {
      var sub := if cs[0] in d.subdirs then d.subdirs[cs[0]] else EMPTY_DIR;
      InsertNames(sub, cs[1..], b);
      assert GoodNames(cs) <==> EntryNameOk(cs[0]) && GoodNames(cs[1..]) by {
        assert cs == [cs[0]] + cs[1..];
      }
      SubdirNames(d, cs[0], sub, InsertPath(sub, cs[1..], b), GoodNames(cs[1..]));
    }
  }

  /** Replacing or creating one subdirectory. */
  lemma SubdirNames(d: Dir, c: string, sub: Dir, sub': Dir, good: bool)
    requires sub == if c in d.subdirs then d.subdirs[c] else EMPTY_DIR
    requires NamesOk(sub') <==> NamesOk(sub) && good
    ensures NamesOk(d.(subdirs := d.subdirs[c := sub'])) <==> NamesOk(d) && EntryNameOk(c) && good
  {
    var d' := d.(subdirs := d.subdirs[c := sub']);
    if NamesOk(d) && EntryNameOk(c) && good {
      assert NamesOk(sub);
    }
    if NamesOk(d') {
      assert c in d'.subdirs && NamesOk(d'.subdirs[c]);
      forall n <- d.subdirs ensures EntryNameOk(n) && NamesOk(d.subdirs[n]) {
        assert n in d'.subdirs;
      }
    }
  }

  lemma {:induction false} InsertPopulated(d: Dir, cs: seq<string>, b: Object)
    requires |cs| >= 1 && Populated(d) && b.Blob?
    ensures Populated(InsertPath(d, cs, b)) && InsertPath(d, cs, b) != EMPTY_DIR
    decreases cs
  {
    if |cs| == 1 {
      assert cs[0] in InsertPath(d, cs, b).blobs;
    } else {
      var sub := if cs[0] in d.subdirs then d.subdirs[cs[0]] else EMPTY_DIR;
      InsertPopulated(sub, cs[1..], b);
      assert cs[0] in InsertPath(d, cs, b).subdirs;
    }
  }

  /** A path the tree builder can store. */
  predicate StorablePath(p: string) {
    GoodNames(Split(p))
  }

  /** Some longer path makes `p` a directory. */
  predicate Shadowed(p: string, ks: set<string>) {
    exists q <- ks :: DirPrefix(p, q)
  }

  predicate PrefixFree(m: map<string, Object>) {
    forall p <- m :: !Shadowed(p, m.Keys)
  }

  /** The map without the paths that are directory prefixes of others in it. */
  function Prune(m: map<string, Object>): map<string, Object> {
    map p | p in m && !Shadowed(p, m.Keys) :: m[p]
  }

  predicate AllBlobs(m: map<string, Object>) {
    forall p <- m :: m[p].Blob?
  }

  lemma {:induction false} FillHolds(ks: seq<string>, m: map<string, Object>, p: string)
    requires forall k <- ks :: k in m
    ensures DirBlob(Fill(ks, m), Split(p)) == if p in ks then Some(m[p]) else None
    ensures HasDir(Fill(ks, m), Split(p)) <==> exists k <- ks :: DirPrefix(p, k)
  {
    if ks != [] {
      var init, k := ks[..|ks| - 1], ks[|ks| - 1];
      FillHolds(init, m, p);
      InsertHolds(Fill(init, m), k, m[k], p);
      assert ks == init + [k];
    }
  }

  lemma InsertHolds(d: Dir, k: string, b: Object, p: string)
    ensures DirBlob(InsertPath(d, Split(k), b), Split(p)) == if p == k then Some(b) else DirBlob(d, Split(p))
    ensures HasDir(InsertPath(d, Split(k), b), Split(p)) <==> HasDir(d, Split(p)) || DirPrefix(p, k)
  {
    InsertBlob(d, Split(k), b, Split(p));
    InsertDir(d, Split(k), b, Split(p));
    DirPrefixSplit(p, k);
    JoinSplit(p);
    JoinSplit(k);
  }

  lemma {:induction false} FillShape(ks: seq<string>, m: map<string, Object>)
    requires forall k <- ks :: k in m
    requires AllBlobs(m)
    ensures Populated(Fill(ks, m))
    ensures NamesOk(Fill(ks, m)) <==> forall k <- ks :: StorablePath(k)
  {
    if ks != [] {
      var init, k := ks[..|ks| - 1], ks[|ks| - 1];
      FillShape(init, m);
      InsertPopulated(Fill(init, m), Split(k), m[k]);
      InsertNames(Fill(init, m), Split(k), m[k]);
      assert ks == init + [k];
      assert (forall x <- ks :: StorablePath(x)) <==> (forall x <- init :: StorablePath(x)) && StorablePath(k);
    }
  }

  lemma BuildNonEmpty(d: Dir)
    requires d != EMPTY_DIR
    ensures Build(d).entries != map[]
  {
    assert d.blobs != map[] || d.subdirs != map[];
    var n :| n in d.blobs || n in d.subdirs;
    assert n in Build(d).entries;
  }

  lemma {:induction false} BuildWf(d: Dir)
    requires NamesOk(d) && Populated(d)
    ensures WfTree(Build(d))
  {
    var t := Build(d);
    forall n <- t.entries
      ensures EntryNameOk(n) && (t.entries[n].Blob? || (WfTree(t.entries[n]) && t.entries[n].entries != map[]))
    {
      if n in d.subdirs {
        assert t.entries[n] == Build(d.subdirs[n]);
        BuildWf(d.subdirs[n]);
        BuildNonEmpty(d.subdirs[n]);
      } else {
        assert t.entries[n] == d.blobs[n];
      }
    }
  }

  lemma {:induction false} BuildBlobAt(d: Dir, cs: seq<string>, b: Object)
    requires Populated(d) && |cs| >= 1
    ensures IsBlobAt(Build(d), cs, b) <==> DirBlob(d, cs) == Some(b) && !HasDir(d, cs)
    decreases cs
  {
    var t, c := Build(d), cs[0];
    if |cs| == 1 {
      assert Entry(t, cs) == if c in t.entries then Some(t.entries[c]) else None by {
        assert cs[1..] == [];
      }
      assert HasDir(d, cs) <==> c in d.subdirs;
    } else if c in d.subdirs {
      BuildBlobAt(d.subdirs[c], cs[1..], b);
      assert HasDir(d, cs) <==> HasDir(d.subdirs[c], cs[1..]);
    } else {
      assert c in d.blobs ==> Entry(d.blobs[c], cs[1..]) == None;
    }
    DirBlobIsBlob(d, cs);
  }

  lemma {:induction false} DirBlobIsBlob(d: Dir, cs: seq<string>)
    requires Populated(d) && |cs| >= 1
    ensures DirBlob(d, cs).Some? ==> DirBlob(d, cs).value.Blob?
    decreases cs
  {
    if |cs| > 1 && cs[0] in d.subdirs {
      DirBlobIsBlob(d.subdirs[cs[0]], cs[1..]);
    }
  }

  // ---- The two directions ----

  lemma TreeOfWf(m: map<string, Object>)
    requires AllBlobs(m) && forall p <- m :: StorablePath(p)
    ensures WfTree(TreeOf(m))
  {
    FillShape(SortedKeys(m.Keys), m);
    BuildWf(Fill(SortedKeys(m.Keys), m));
  }

  lemma FlattenTreeOfAt(m: map<string, Object>, p: string)
    requires AllBlobs(m) && forall p <- m :: StorablePath(p)
    requires WfTree(TreeOf(m))
    ensures p in Flatten(TreeOf(m)) <==> p in Prune(m)
    ensures p in Prune(m) ==> Flatten(TreeOf(m))[p] == m[p]
  {
    var ks, t, cs := SortedKeys(m.Keys), TreeOf(m), Split(p);
    FillShape(ks, m);
    FillHolds(ks, m, p);
    FlattenAt(t, p);
    if p in m {
      BuildBlobAt(Fill(ks, m), cs, m[p]);
    }
    if p in Flatten(t) {
      BuildBlobAt(Fill(ks, m), cs, Flatten(t)[p]);
    }
  }

  /** Building and flattening gives back exactly the paths that are not directories. */
  lemma FlattenTreeOf(m: map<string, Object>)
    requires AllBlobs(m) && forall p <- m :: StorablePath(p)
    ensures WfTree(TreeOf(m))
    ensures Flatten(TreeOf(m)) == Prune(m)
  {
    TreeOfWf(m);
    forall p ensures p in Flatten(TreeOf(m)) <==> p in Prune(m)
             ensures p in Prune(m) ==> Flatten(TreeOf(m))[p] == m[p]
    {
      FlattenTreeOfAt(m, p);
    }
  }

  /** A working map survives building and flattening just when no file is also a directory. */
  lemma RoundTripIffPrefixFree(m: map<string, Object>)
    requires AllBlobs(m) && forall p <- m :: StorablePath(p)
    ensures Flatten(TreeOf(m)) == m <==> PrefixFree(m)
  {
    FlattenTreeOf(m);
    PruneAllIff(m);
  }

  lemma PruneAllIff(m: map<string, Object>)
    ensures Prune(m) == m <==> PrefixFree(m)
  {
    if Prune(m) == m {
      forall p <- m ensures !Shadowed(p, m.Keys) { assert p in Prune(m); }
    }
  }

  lemma {:induction false} EntryAlong(t: Object, cs: seq<string>, ds: seq<string>)
    requires cs < ds && Entry(t, ds).Some?
    ensures Entry(t, cs).Some? && Entry(t, cs).value.Tree?
    decreases cs
  {
    if cs != [] {
      EntryAlong(t.entries[ds[0]], cs[1..], ds[1..]);
    }
  }

  lemma FlattenStorable(t: Object)
    requires WfTree(t)
    ensures AllBlobs(Flatten(t)) && PrefixFree(Flatten(t))
    ensures forall p <- Flatten(t) :: StorablePath(p) && ValidRepoPath(p)
  {
    forall p <- Flatten(t)
      ensures Flatten(t)[p].Blob? && !Shadowed(p, Flatten(t).Keys)
      ensures StorablePath(p) && ValidRepoPath(p)
    {
      FlattenAt(t, p);
      EntryWf(t, Split(p));
      JoinSplit(p);
      assert EntryNameOk(Split(p)[0]);
      var a, r := SplitCases(p);
      forall q <- Flatten(t) ensures !DirPrefix(p, q) {
        if DirPrefix(p, q) {
          FlattenAt(t, q);
          DirPrefixSplit(p, q);
          EntryAlong(t, Split(p), Split(q));
        }
      }
    }
  }

  /** Building from the flattening of a tree gives that tree back. */
  lemma TreeOfFlatten(t: Object)
    requires WfTree(t)
    ensures TreeOf(Flatten(t)) == t
  {
    FlattenStorable(t);
    FlattenTreeOf(Flatten(t));
    RoundTripIffPrefixFree(Flatten(t));
    FlattenInjective(TreeOf(Flatten(t)), t);
  }
}
