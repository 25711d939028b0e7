/** Git objects as the repository sees them. An object's id is the object itself, so ids
    are injective on object values and a commit can only name objects older than itself. */
module Objects {
  import opened Text
  import opened Paths

  datatype Object =
    | Blob(data: Bytes)
    | Tree(entries: map<string, Object>)
    | Commit(tree: Object, parents: seq<Object>, info: string)
    | Tag(target: Object, info: string)

  function Lower(c: char): char {
    if 'A' <= c <= 'Z' then c - 'A' + 'a' else c
  }

  /** A name that Windows takes for this one, letter case aside: it goes on with spaces and dots
      only, or with a separator or a stream name. */
  predicate TakenFor(n: string, reserved: string) {
    var k := |reserved|;
    && |n| >= k && (forall i | 0 <= i < k :: Lower(n[i]) == reserved[i])
    && ((|n| > k && n[k] in {'\\', ':'}) || (forall i | k <= i < |n| :: n[i] in {' ', '.'}))
  }

  /** The spellings of ".git", and of its short name, that libgit2 protects. */
  predicate IsDotGit(n: string) {
    TakenFor(n, ".git") || TakenFor(n, "git~1")
  }

  /** The entry names a tree builder accepts. */
  predicate EntryNameOk(n: string) {
    n != "" && '/' !in n && n != "." && n != ".." && !IsDotGit(n)
  }

  /** A tree of plain blobs and non-empty subtrees under acceptable names. */
  predicate WfTree(t: Object) {
    && t.Tree?
    && forall n <- t.entries ::
         && EntryNameOk(n)
         && (t.entries[n].Blob? || (WfTree(t.entries[n]) && t.entries[n].entries != map[]))
  }

  predicate WfObject(o: Object) {
    match o
    case Blob(_) => true
    case Tree(_) => WfTree(o)
    case Commit(tree, parents, _) => WfTree(tree) && forall p <- parents :: p.Commit?
    case Tag(_, _) => true
  }

  /** The objects an object names directly. */
  function Children(o: Object): set<Object> {
    match o
    case Blob(_) => {}
    case Tree(entries) => entries.Values
    case Commit(tree, parents, _) => {tree} + set p | p in parents
    case Tag(target, _) => {target}
  }

  // ---- Ancestry ----

  predicate IsAncestor(a: Object, c: Object) {
    a == c || (c.Commit? && exists i | 0 <= i < |c.parents| :: IsAncestor(a, c.parents[i]))
  }

  lemma {:induction false} AncestorTransitive(a: Object, b: Object, c: Object)
    requires IsAncestor(a, b) && IsAncestor(b, c)
    ensures IsAncestor(a, c)
    decreases c
  {
    if b != c {
      var i :| 0 <= i < |c.parents| && IsAncestor(b, c.parents[i]);
      AncestorTransitive(a, b, c.parents[i]);
    }
  }

  lemma {:induction false} AncestorSmaller(a: Object, c: Object)
    requires IsAncestor(a, c)
    ensures a == c || a < c
    decreases c
  {
    if a != c {
      var i :| 0 <= i < |c.parents| && IsAncestor(a, c.parents[i]);
      AncestorSmaller(a, c.parents[i]);
    }
  }

  /** No commit is an ancestor of one of its own parents. */
  lemma ParentIsOlder(c: Object, i: nat)
    requires c.Commit? && i < |c.parents|
    ensures IsAncestor(c.parents[i], c) && !IsAncestor(c, c.parents[i])
  {
    if IsAncestor(c, c.parents[i]) {
      AncestorSmaller(c, c.parents[i]);
    }
  }

  // ---- Looking up entries ----

  function Entry(t: Object, cs: seq<string>): Option<Object> {
    if cs == [] then Some(t)
    else if t.Tree? && cs[0] in t.entries then Entry(t.entries[cs[0]], cs[1..])
    else None
  }

  predicate IsBlobAt(t: Object, cs: seq<string>, b: Object) {
    b.Blob? && Entry(t, cs) == Some(b)
  }

  /** Lookup of an entry by path text. One trailing slash is allowed after a directory. */
  function EntryByPath(t: Object, p: string): Option<Object> {
    var cs := Split(p);
    if |cs| > 1 && cs[|cs| - 1] == "" then
      var e := Entry(t, cs[..|cs| - 1]);
      if e.Some? && e.value.Tree? then e else None
    else
      Entry(t, cs)
  }

  lemma {:induction false} EntrySnoc(t: Object, cs: seq<string>, c: string)
    ensures Entry(t, cs + [c]) == match Entry(t, cs)
                                  case None => None
                                  case Some(u) => Entry(u, [c])
  {
    if cs != [] {
      assert (cs + [c])[1..] == cs[1..] + [c];
      if t.Tree? && cs[0] in t.entries {
        EntrySnoc(t.entries[cs[0]], cs[1..], c);
      }
    }
  }

  lemma {:induction false} EntryWf(t: Object, cs: seq<string>)
    requires WfTree(t)
    ensures var e := Entry(t, cs);
            e.Some? ==> (e.value.Blob? || WfTree(e.value)) && NoSlash(cs) && forall c <- cs :: EntryNameOk(c)
    decreases cs
  {
    if cs != [] && cs[0] in t.entries {
      if t.entries[cs[0]].Tree? {
        EntryWf(t.entries[cs[0]], cs[1..]);
      }
      assert cs == [cs[0]] + cs[1..];
    }
  }

  lemma EntryByPathBlob(t: Object, p: string)
    requires WfTree(t)
    ensures forall b :: EntryByPath(t, p) == Some(b) && b.Blob? <==> IsBlobAt(t, Split(p), b)
  {
    var cs := Split(p);
    EntryWf(t, cs);
    assert !EntryNameOk("");
    assert Entry(t, cs).Some? ==> EntryNameOk(cs[|cs| - 1]);
  }

  // ---- Flattening ----

  function BlobPaths(t: Object): set<seq<string>> {
    match t
    case Blob(_) => {[]}
    case Tree(entries) => set n, q | n in entries && q in BlobPaths(entries[n]) :: [n] + q
    case _ => {}
  }

  lemma {:induction false} BlobPathsEntries(t: Object, cs: seq<string>)
    ensures cs in BlobPaths(t) <==> Entry(t, cs).Some? && Entry(t, cs).value.Blob?
    decreases t
  {
    if t.Tree? {
      if cs != [] && cs[0] in t.entries {
        BlobPathsEntries(t.entries[cs[0]], cs[1..]);
        assert cs == [cs[0]] + cs[1..];
      }
      if cs in BlobPaths(t) {
        var n, q :| n in t.entries && q in BlobPaths(t.entries[n]) && cs == [n] + q;
        assert cs[1..] == q;
      }
    }
  }

  function BlobAt(t: Object, p: string): Object {
    var e := Entry(t, Split(p));
    if e.Some? then e.value else t
  }

  /** Every blob of the tree under its full path. */
  function Flatten(t: Object): map<string, Object> {
    map p | p in (set cs | cs in BlobPaths(t) && cs != [] :: Join(cs)) :: BlobAt(t, p)
  }

  lemma FlattenAt(t: Object, p: string)
    requires WfTree(t)
    ensures p in Flatten(t) <==> Entry(t, Split(p)).Some? && Entry(t, Split(p)).value.Blob?
    ensures p in Flatten(t) ==> IsBlobAt(t, Split(p), Flatten(t)[p])
  {
    var cs := Split(p);
    BlobPathsEntries(t, cs);
    JoinSplit(p);
    if p in Flatten(t) {
      var ds :| ds in BlobPaths(t) && ds != [] && Join(ds) == p;
      BlobPathsEntries(t, ds);
      EntryWf(t, ds);
      SplitJoin(ds);
    }
  }

  lemma {:induction false} NonEmptyTreeHasBlob(t: Object) returns (cs: seq<string>)
    requires WfTree(t) && t.entries != map[]
    ensures cs != [] && Entry(t, cs).Some? && Entry(t, cs).value.Blob?
    decreases t
  {
    var n :| n in t.entries;
    if t.entries[n].Blob? {
      cs := [n];
      assert Entry(t.entries[n], []) == Some(t.entries[n]);
    } else {
      var q := NonEmptyTreeHasBlob(t.entries[n]);
      cs := [n] + q;
    }
  }

  ghost predicate SameBlobs(t: Object, u: Object) {
    forall cs, b :: IsBlobAt(t, cs, b) <==> IsBlobAt(u, cs, b)
  }

  lemma SameBlobsBelow(t: Object, u: Object, n: string)
    requires SameBlobs(t, u) && t.Tree? && u.Tree? && n in t.entries && n in u.entries
    ensures SameBlobs(t.entries[n], u.entries[n])
  {
    forall cs, b ensures IsBlobAt(t.entries[n], cs, b) <==> IsBlobAt(u.entries[n], cs, b) {
      assert ([n] + cs)[1..] == cs;
      assert IsBlobAt(t, [n] + cs, b) <==> IsBlobAt(u, [n] + cs, b);
    }
  }

  lemma SameBlobsEntry(t: Object, u: Object, n: string)
    requires WfTree(t) && WfTree(u) && SameBlobs(t, u) && n in t.entries
    ensures n in u.entries
    ensures t.entries[n].Blob? ==> u.entries[n] == t.entries[n]
    ensures t.entries[n].Tree? ==> u.entries[n].Tree?
  {
    if t.entries[n].Blob? {
      assert [n][1..] == [];
      assert IsBlobAt(t, [n], t.entries[n]);
      assert IsBlobAt(u, [n], t.entries[n]);
      assert Entry(u.entries[n], []) == Some(t.entries[n]);
    } else {
      var q := NonEmptyTreeHasBlob(t.entries[n]);
      var b := Entry(t.entries[n], q).value;
      assert ([n] + q)[1..] == q;
      assert IsBlobAt(t, [n] + q, b);
      assert IsBlobAt(u, [n] + q, b);
      assert Entry(u.entries[n], q) == Some(b);
    }
  }

  /** Well-formed trees with the same blobs at the same places are the same tree. */
  lemma {:induction false} SameBlobsSameTree(t: Object, u: Object)
    requires WfTree(t) && WfTree(u) && SameBlobs(t, u)
    ensures t == u
    decreases t
  {
    forall n | n in t.entries || n in u.entries
      ensures n in t.entries && n in u.entries && t.entries[n] == u.entries[n]
    {
      if n in t.entries { SameBlobsEntry(t, u, n); } else { SameBlobsEntry(u, t, n); }
      if t.entries[n].Tree? {
        SameBlobsEntry(t, u, n);
        SameBlobsBelow(t, u, n);
        SameBlobsSameTree(t.entries[n], u.entries[n]);
      } else {
        SameBlobsEntry(t, u, n);
      }
    }
    assert t.entries == u.entries;
  }

  /** Flattening loses nothing: it determines a well-formed tree. */
  lemma FlattenInjective(t: Object, u: Object)
    requires WfTree(t) && WfTree(u) && Flatten(t) == Flatten(u)
    ensures t == u
  {
    forall cs, b ensures IsBlobAt(t, cs, b) <==> IsBlobAt(u, cs, b) {
      if cs != [] && (IsBlobAt(t, cs, b) || IsBlobAt(u, cs, b)) {
        EntryWf(t, cs);
        EntryWf(u, cs);
        SplitJoin(cs);
        FlattenAt(t, Join(cs));
        FlattenAt(u, Join(cs));
      }
    }
    SameBlobsSameTree(t, u);
  }
}
