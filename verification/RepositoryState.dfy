/** The state of a virtual repository: object store, references and working map, what it
    must always satisfy, and how libgit2 reads it. */
module RepositoryState {
  import opened Text
  import opened Paths
  import opened Objects
  import opened TreeBuilding

  datatype Ref = Direct(id: Object) | Symbolic(target: string)

  /** `work` is the flat working tree, path to blob. `onDisk` says that the store and the
      references have moved to a directory. */
  datatype State = State(odb: set<Object>, refs: map<string, Ref>, work: map<string, Object>, onDisk: bool)

  const HEAD := "HEAD"
  const MAIN := "refs/heads/main"

  function Branch(name: string): string { "refs/heads/" + name }
  function TagRef(name: string): string { "refs/tags/" + name }
  predicate IsBranchRef(n: string) { "refs/heads/" <= n }

  // ---- References ----

  /** A directory-backed store keeps a reference in the file of its name: none of its names may
      be a directory of another. */
  predicate PathFree(names: set<string>, n: string) {
    forall m <- names :: !DirPrefix(m, n) && !DirPrefix(n, m)
  }

  /** The references accept a new one of this name. */
  predicate RefFree(s: State, n: string) {
    s.onDisk ==> PathFree(s.refs.Keys, n)
  }

  datatype ResolvedRef = ResolvedRef(name: string, id: Object)

  /** Follows symbolic references, at most `depth` of them. */
  function Resolve(refs: map<string, Ref>, name: string, depth: nat): Option<ResolvedRef>
    decreases depth
  {
    if name !in refs then None
    else match refs[name]
      case Direct(id) => Some(ResolvedRef(name, id))
      case Symbolic(target) => if depth == 0 then None else Resolve(refs, target, depth - 1)
  }

  /** The name at the end of a chain of symbolic references, present or not. */
  function Terminal(refs: map<string, Ref>, name: string, depth: nat): string
    decreases depth
  {
    if name in refs && refs[name].Symbolic? && depth > 0
    then Terminal(refs, refs[name].target, depth - 1) else name
  }

  function HeadRef(s: State): Option<ResolvedRef> { Resolve(s.refs, HEAD, 6) }

  function HeadId(s: State): Option<Object> {
    match HeadRef(s) case None => None case Some(r) => Some(r.id)
  }

  predicate OnBranch(s: State, name: string) {
    HEAD in s.refs && s.refs[HEAD] == Symbolic(Branch(name))
  }

  /** The name of the branch HEAD is on; a detached or unborn HEAD has none. */
  function CurrentBranch(s: State): Option<string> {
    match HeadRef(s)
    case None => None
    case Some(r) => if IsBranchRef(r.name) then Some(r.name[|"refs/heads/"|..]) else None
  }

  /** A commit-ish as the caller writes it: its text, and the stored object whose id the
      text spells in full or abbreviates, if any. */
  datatype Rev = Rev(text: string, full: Option<Object>, abbrev: Option<Object>)

  function DwimNames(t: string): seq<string> {
    if t == "" then [HEAD]
    else [t, "refs/" + t, TagRef(t), Branch(t), "refs/remotes/" + t, "refs/remotes/" + t + "/HEAD"]
  }

  function FirstResolved(refs: map<string, Ref>, names: seq<string>): Option<Object> {
    if names == [] then None
    else match Resolve(refs, names[0], 5)
      case Some(r) => Some(r.id)
      case None => FirstResolved(refs, names[1..])
  }

  /** A full id wins over every reference, a reference over an abbreviated id. */
  function RevParse(s: State, rev: Rev): Option<Object> {
    if rev.full.Some? && rev.full.value in s.odb then rev.full
    else match FirstResolved(s.refs, DwimNames(rev.text))
      case Some(o) => Some(o)
      case None => if rev.abbrev.Some? && rev.abbrev.value in s.odb then rev.abbrev else None
  }

  function Peel(o: Object): (c: Option<Object>)
    ensures c.Some? ==> c.value.Commit?
  {
    match o
    case Commit(_, _, _) => Some(o)
    case Tag(target, _) => Peel(target)
    case _ => None
  }

  // ---- What always holds ----

  ghost predicate Closed(odb: set<Object>) {
    forall o <- odb :: WfObject(o) && Children(o) <= odb
  }

  ghost predicate ValidRefs(odb: set<Object>, refs: map<string, Ref>) {
    && (forall n <- refs :: refs[n].Direct? ==> refs[n].id in odb)
    && (forall n <- refs | IsBranchRef(n) :: refs[n].Direct? && refs[n].id.Commit?)
    && (HEAD in refs ==>
          match refs[HEAD]
          case Direct(id) => id.Commit?
          case Symbolic(t) => IsBranchRef(t))
  }

  predicate ValidWork(odb: set<Object>, work: map<string, Object>) {
    forall p <- work :: work[p].Blob? && work[p] in odb && ValidRepoPath(p)
  }

  ghost predicate Valid(s: State) {
    Closed(s.odb) && ValidRefs(s.odb, s.refs) && ValidWork(s.odb, s.work)
  }

  /** The reference a commit on HEAD moves. */
  function HeadTarget(s: State): string {
    if HEAD in s.refs && s.refs[HEAD].Symbolic? then s.refs[HEAD].target else HEAD
  }

  /** HEAD, when it is born, is a commit of the store, held by one direct reference. */
  lemma HeadIsCommit(s: State)
    requires Valid(s)
    ensures HeadRef(s).Some? <==> HeadTarget(s) in s.refs
    ensures IsBranchRef(HeadTarget(s)) || HeadTarget(s) == HEAD
    ensures HeadRef(s).Some? ==> var r := HeadRef(s).value;
                                 && r.id.Commit? && r.id in s.odb && r.id.tree in s.odb && WfTree(r.id.tree)
                                 && r.name == HeadTarget(s) && s.refs[r.name] == Direct(r.id)
  {
    if HEAD in s.refs {
      match s.refs[HEAD] {
        case Direct(id) =>
          assert id.tree in Children(id);
        case Symbolic(t) =>
          if t in s.refs {
            assert Resolve(s.refs, t, 5) == Some(ResolvedRef(t, s.refs[t].id));
            assert s.refs[t].id.tree in Children(s.refs[t].id);
          }
      }
    }
  }

  lemma {:induction false} ResolvedInStore(s: State, name: string, depth: nat)
    requires Valid(s)
    decreases depth
    ensures var r := Resolve(s.refs, name, depth); r.Some? ==>
              && r.value.name in s.refs && s.refs[r.value.name] == Direct(r.value.id) && r.value.id in s.odb
  {
    if name in s.refs && s.refs[name].Symbolic? && depth > 0 {
      ResolvedInStore(s, s.refs[name].target, depth - 1);
    }
  }

  lemma {:induction false} FirstResolvedInStore(s: State, names: seq<string>)
    requires Valid(s)
    ensures var r := FirstResolved(s.refs, names); r.Some? ==> r.value in s.odb
  {
    if names != [] {
      ResolvedInStore(s, names[0], 5);
      FirstResolvedInStore(s, names[1..]);
    }
  }

  lemma {:induction false} PeelInStore(s: State, o: Object)
    requires Valid(s) && o in s.odb
    ensures var c := Peel(o); c.Some? ==>
              c.value.Commit? && c.value in s.odb && c.value.tree in s.odb && WfTree(c.value.tree)
  {
    match o {
      case Commit(tree, _, _) => assert tree in Children(o);
      case Tag(target, _) =>
        assert target in Children(o);
        PeelInStore(s, target);
      case _ =>
    }
  }

  lemma RevParseInStore(s: State, rev: Rev)
    requires Valid(s)
    ensures var r := RevParse(s, rev); r.Some? ==> r.value in s.odb
  {
    FirstResolvedInStore(s, DwimNames(rev.text));
  }

  /** The working map is exactly the flattened tree of HEAD. */
  predicate InSync(s: State) {
    var h := HeadId(s);
    h.Some? && h.value.Commit? && s.work == Flatten(h.value.tree)
  }

  // ---- Stored trees ----

  /** A tree and all trees below it: what writing it adds to the store. */
  function Subtrees(t: Object): set<Object> {
    match t
    case Tree(entries) => {t} + set n, u | n in entries && u in Subtrees(entries[n]) :: u
    case _ => {}
  }

  ghost predicate BlobsIn(t: Object, odb: set<Object>) {
    forall cs, b | IsBlobAt(t, cs, b) :: b in odb
  }

  lemma {:induction false} SubtreesClosed(t: Object, odb: set<Object>)
    requires WfTree(t) && BlobsIn(t, odb)
    ensures forall u <- Subtrees(t) :: WfObject(u) && Children(u) <= odb + Subtrees(t)
  {
    forall n <- t.entries
      ensures t.entries[n].Tree? ==>
                forall u <- Subtrees(t.entries[n]) :: WfObject(u) && Children(u) <= odb + Subtrees(t.entries[n])
      ensures t.entries[n] in odb + Subtrees(t)
    {
      var e := t.entries[n];
      assert [n][1..] == [];
      if e.Blob? {
        assert IsBlobAt(t, [n], e);
      } else {
        forall cs, b | IsBlobAt(e, cs, b) ensures b in odb {
          assert ([n] + cs)[1..] == cs;
          assert IsBlobAt(t, [n] + cs, b);
        }
        SubtreesClosed(e, odb);
        assert e in Subtrees(e);
      }
    }
    forall u <- Subtrees(t) ensures WfObject(u) && Children(u) <= odb + Subtrees(t) {
      if u != t {
        var n :| n in t.entries && u in Subtrees(t.entries[n]);
        assert Subtrees(t.entries[n]) <= Subtrees(t);
      }
    }
  }

  lemma TreeOfClosed(odb: set<Object>, m: map<string, Object>)
    requires Closed(odb) && ValidWork(odb, m) && forall p <- m :: StorablePath(p)
    ensures WfTree(TreeOf(m)) && Closed(odb + Subtrees(TreeOf(m)))
  {
    var t := TreeOf(m);
    FlattenTreeOf(m);
    forall cs, b | IsBlobAt(t, cs, b) ensures b in odb {
      if cs != [] {
        EntryWf(t, cs);
        SplitJoin(cs);
        FlattenAt(t, Join(cs));
      }
    }
    SubtreesClosed(t, odb);
  }

  /** Everything a stored tree flattens to may stand in the working map. */
  lemma {:induction false} StoredBlob(odb: set<Object>, t: Object, cs: seq<string>)
    requires Closed(odb) && t in odb
    ensures Entry(t, cs).Some? ==> Entry(t, cs).value in odb
    decreases cs
  {
    if cs != [] && t.Tree? && cs[0] in t.entries {
      assert t.entries[cs[0]] in Children(t);
      StoredBlob(odb, t.entries[cs[0]], cs[1..]);
    }
  }

  lemma FlattenIsValidWork(odb: set<Object>, t: Object)
    requires Closed(odb) && t in odb && WfTree(t)
    ensures ValidWork(odb, Flatten(t))
  {
    FlattenStorable(t);
    forall p <- Flatten(t) ensures Flatten(t)[p] in odb {
      FlattenAt(t, p);
      StoredBlob(odb, t, Split(p));
    }
  }
}
