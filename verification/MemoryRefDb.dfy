/** The in-memory reference database backend: a map changed in place, and iterators that walk
    a snapshot of it. */
module MemoryRefDb {
  import opened Text
  import opened RepositoryState

  type Refs = map<string, Ref>

  /** The entries in name order. */
  function Entries(refs: Refs, names: seq<string>): seq<(string, Ref)>
    requires forall n <- names :: n in refs
  {
    seq(|names|, i requires 0 <= i < |names| => (names[i], refs[names[i]]))
  }

  function Snapshot(refs: Refs): seq<(string, Ref)> {
    Entries(refs, SortedKeys(refs.Keys))
  }

  /** Does a name pass the filter? No glob passes everything. */
  predicate Passes(glob: string, matches: (string, string) -> bool, name: string) {
    glob == "" || matches(glob, name)
  }

  function Filter(es: seq<(string, Ref)>, glob: string, matches: (string, string) -> bool): seq<(string, Ref)> {
    if es == [] then []
    else (if Passes(glob, matches, es[0].0) then [es[0]] else []) + Filter(es[1..], glob, matches)
  }

  class MemoryRefDb {
    var refs: Refs

    constructor ()
      ensures refs == map[]
    {
      refs := map[];
    }

    /** Fails, changing nothing, when the name is taken and `force` is not given. */
    method Write(name: string, ref: Ref, force: bool) returns (r: Result<()>)
      modifies this
      ensures r.Err? <==> !force && name in old(refs)
      ensures refs == if r.Ok? then old(refs)[name := ref] else old(refs)
    {
      if !force && name in refs {
        return Err("exists");
      }
      refs := refs[name := ref];
      return Ok(());
    }

    method Rename(oldName: string, newName: string, force: bool) returns (r: Result<Ref>)
      modifies this
      ensures r.Ok? <==> oldName in old(refs) && (force || newName !in old(refs))
      ensures r.Ok? ==> r.value == old(refs)[oldName] && refs == (old(refs) - {oldName})[newName := old(refs)[oldName]]
      ensures r.Err? ==> refs == old(refs)
    {
      if oldName !in refs {
        return Err("not found");
      }
      if !force && newName in refs {
        return Err("exists");
      }
      var entry := refs[oldName];
      refs := refs - {oldName};
      refs := refs[newName := entry];
      return Ok(entry);
    }

    method Delete(name: string) returns (r: Result<()>)
      modifies this
      ensures r.Ok? <==> name in old(refs)
      ensures refs == old(refs) - {name}
    {
      if name !in refs {
        assert refs - {name} == refs;
        return Err("not found");
      }
      refs := refs - {name};
      return Ok(());
    }

    /** Opens an iterator over the references of this moment. */
    method Iterate(glob: string, matches: (string, string) -> bool) returns (it: RefIterator)
      ensures fresh(it) && it.Inv() && it.Remaining() == Filter(Snapshot(refs), glob, matches)
    {
      it := new RefIterator(refs, glob, matches);
    }
  }

  function Renamed(refs: Refs, oldName: string, newName: string): Refs
    requires oldName in refs
  {
    (refs - {oldName})[newName := refs[oldName]]
  }

  /** A rename to a free name is undone by renaming back. */
  lemma RenameBack(refs: Refs, a: string, b: string)
    requires a in refs && b !in refs
    ensures Renamed(Renamed(refs, a, b), b, a) == refs
    ensures Renamed(refs, a, b) == (refs - {a})[b := refs[a]]
    ensures Renamed(refs, a, b).Values == refs.Values
  {
    var there := Renamed(refs, a, b);
    forall v <- refs.Values ensures v in there.Values {
      var n :| n in refs && refs[n] == v;
      assert there[if n == a then b else n] == v;
    }
    forall v <- there.Values ensures v in refs.Values {
      var n :| n in there && there[n] == v;
      assert refs[if n == b then a else n] == v;
    }
  }

  /** `glob` matching itself is the system's `fnmatch`. */
  class RefIterator {
    const entries: seq<(string, Ref)>
    const glob: string
    const matches: (string, string) -> bool
    var pos: nat

    ghost predicate Inv()
      reads this
    {
      pos <= |entries|
    }

    /** What is still to come. */
    ghost function Remaining(): seq<(string, Ref)>
      reads this
      requires Inv()
    {
      Filter(entries[pos..], glob, matches)
    }

    constructor (refs: Refs, glob: string, matches: (string, string) -> bool)
      ensures Inv() && Remaining() == Filter(Snapshot(refs), glob, matches)
    {
      this.glob, this.matches, this.pos := glob, matches, 0;
      this.entries := Snapshot(refs);
    }

    method Next() returns (r: Option<(string, Ref)>)
      requires Inv()
      modifies this
      ensures Inv()
      ensures r == if old(Remaining()) == [] then None else Some(old(Remaining())[0])
      ensures Remaining() == if old(Remaining()) == [] then [] else old(Remaining())[1..]
    {
      while pos < |entries|
        invariant Inv() && Remaining() == old(Remaining())
      {
        var entry := entries[pos];
        assert entries[pos..][1..] == entries[pos + 1..];
        pos := pos + 1;
        if glob != "" && !matches(glob, entry.0) {
          continue;
        }
        return Some(entry);
      }
      return None;
    }

    method NextName() returns (r: Option<string>)
      requires Inv()
      modifies this
      ensures Inv()
      ensures r == if old(Remaining()) == [] then None else Some(old(Remaining())[0].0)
      ensures Remaining() == if old(Remaining()) == [] then [] else old(Remaining())[1..]
    {
      while pos < |entries|
        invariant Inv() && Remaining() == old(Remaining())
      {
        var entry := entries[pos];
        assert entries[pos..][1..] == entries[pos + 1..];
        pos := pos + 1;
        if glob != "" && !matches(glob, entry.0) {
          continue;
        }
        return Some(entry.0);
      }
      return None;
    }
  }

  function Names(es: seq<(string, Ref)>): seq<string> {
    seq(|es|, i requires 0 <= i < |es| => es[i].0)
  }

  lemma {:induction false} FilterKeeps(es: seq<(string, Ref)>, glob: string, matches: (string, string) -> bool,
      e: (string, Ref))
    ensures e in Filter(es, glob, matches) <==> e in es && Passes(glob, matches, e.0)
  {
    if es != [] {
      FilterKeeps(es[1..], glob, matches, e);
      assert e in es <==> e == es[0] || e in es[1..];
    }
  }

  lemma {:induction false} FilterOrdered(es: seq<(string, Ref)>, glob: string, matches: (string, string) -> bool)
    requires Ascending(Names(es))
    ensures Ascending(Names(Filter(es, glob, matches)))
  {
    if es != [] {
      var rest := Filter(es[1..], glob, matches);
      assert Names(es)[1..] == Names(es[1..]);
      FilterOrdered(es[1..], glob, matches);
      if Passes(glob, matches, es[0].0) {
        forall i | 0 <= i < |rest| ensures Below(es[0].0, rest[i].0) {
          FilterKeeps(es[1..], glob, matches, rest[i]);
          var j :| 0 <= j < |es[1..]| && es[1..][j] == rest[i];
          assert Names(es)[0] == es[0].0 && Names(es)[j + 1] == rest[i].0;
        }
        assert Names([es[0]] + rest) == [es[0].0] + Names(rest);
      } else {
        assert Filter(es, glob, matches) == rest;
      }
    }
  }

  /** An iterator is to yield exactly the matching references of the moment it was opened,
      each once and in name order. */
  lemma SnapshotExact(refs: Refs, glob: string, matches: (string, string) -> bool)
    ensures Ascending(Names(Filter(Snapshot(refs), glob, matches)))
    ensures forall n, r :: (n, r) in Filter(Snapshot(refs), glob, matches)
                           <==> n in refs && refs[n] == r && (glob == "" || matches(glob, n))
  {
    var es, ks := Snapshot(refs), SortedKeys(refs.Keys);
    assert Names(es) == ks;
    FilterOrdered(es, glob, matches);
    forall n, r ensures (n, r) in Filter(es, glob, matches) <==> n in refs && refs[n] == r && Passes(glob, matches, n) {
      FilterKeeps(es, glob, matches, (n, r));
      if n in refs {
        assert n in ks;
        var i :| 0 <= i < |ks| && ks[i] == n;
        assert es[i] == (n, refs[n]);
      }
    }
  }

  /** One call in a run that mixes both kinds of next with changes to the database. */
  datatype Call = CallNext | CallNextName | CallWrite(name: string, ref: Ref, force: bool)
                | CallRename(from: string, to: string, force: bool) | CallDelete(name: string)

  function NextCalls(calls: seq<Call>): nat {
    if calls == [] then 0
    else
      var last := calls[|calls| - 1];
      NextCalls(calls[..|calls| - 1]) + if last.CallNext? || last.CallNextName? then 1 else 0
  }

  /** What the next calls among these yield: the entries in order, by name or with the reference,
      until there are none. */
  function YieldedBy(all: seq<(string, Ref)>, calls: seq<Call>): seq<(string, Option<Ref>)> {
    if calls == [] then []
    else
      var first, call := calls[..|calls| - 1], calls[|calls| - 1];
      var k := NextCalls(first);
      YieldedBy(all, first)
      + if (call.CallNext? || call.CallNextName?) && k < |all|
        then [(all[k].0, if call.CallNext? then Some(all[k].1) else None)] else []
  }

  lemma {:induction false} YieldedCount(all: seq<(string, Ref)>, calls: seq<Call>)
    ensures |YieldedBy(all, calls)| == if NextCalls(calls) <= |all| then NextCalls(calls) else |all|
  {
    if calls != [] {
      YieldedCount(all, calls[..|calls| - 1]);
    }
  }

  /** The i-th entry yielded is the i-th of the snapshot, by name and, where it was asked for, by
      reference. */
  lemma {:induction false} YieldedInOrder(all: seq<(string, Ref)>, calls: seq<Call>, i: nat)
    requires i < |YieldedBy(all, calls)|
    ensures i < |all| && YieldedBy(all, calls)[i].0 == all[i].0
    ensures YieldedBy(all, calls)[i].1.Some? ==> YieldedBy(all, calls)[i].1.value == all[i].1
  {
    var init := calls[..|calls| - 1];
    YieldedCount(all, init);
    if i < |YieldedBy(all, init)| {
      YieldedInOrder(all, init, i);
    }
  }

  lemma YieldedNext(all: seq<(string, Ref)>, calls: seq<Call>, i: nat)
    requires i < |calls|
    ensures var y, k := YieldedBy(all, calls[..i]), NextCalls(calls[..i]);
            var isNext := calls[i].CallNext? || calls[i].CallNextName?;
            && |y| == (if k <= |all| then k else |all|)
            && NextCalls(calls[..i + 1]) == k + (if isNext then 1 else 0)
            && YieldedBy(all, calls[..i + 1]) ==
               y + if isNext && |y| < |all|
                   then [(all[|y|].0, if calls[i].CallNext? then Some(all[|y|].1) else None)] else []
  {
    assert calls[..i + 1][..i] == calls[..i];
    YieldedCount(all, calls[..i]);
  }

  /** Whatever is called in between, the next calls yield the entries of the snapshot, and after
      the last one the iterator stays finished. */
  method RunCalls(db: MemoryRefDb, it: RefIterator, calls: seq<Call>) returns (yielded: seq<(string, Option<Ref>)>)
    requires it.Inv()
    modifies db, it
    ensures it.Inv()
    ensures yielded == YieldedBy(old(it.Remaining()), calls) && |yielded| <= |old(it.Remaining())|
    ensures it.Remaining() == old(it.Remaining())[|yielded|..]
  {
    yielded := [];
    ghost var all := it.Remaining();
    for i := 0 to |calls|
      invariant it.Inv()
      invariant yielded == YieldedBy(all, calls[..i]) && |yielded| <= |all|
      invariant it.Remaining() == all[|yielded|..]
    {
      YieldedNext(all, calls, i);
      match calls[i] {
        case CallNext =>
          var r := it.Next();
          if r.Some? { yielded := yielded + [(r.value.0, Some(r.value.1))]; }
        case CallNextName =>
          var r := it.NextName();
          if r.Some? { yielded := yielded + [(r.value, None)]; }
        case CallWrite(name, ref, force) => var _ := db.Write(name, ref, force);
        case CallRename(from, to, force) => var _ := db.Rename(from, to, force);
        case CallDelete(name) => var _ := db.Delete(name);
      }
    }
    assert calls[..|calls|] == calls;
  }
}
