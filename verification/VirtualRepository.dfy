/** The repository object in virtual mode: its fields and the methods that update them, each
    proved against what `Operations` says the operation does. */
module VirtualRepository {
  import opened Text
  import opened Paths
  import opened Objects
  import opened TreeBuilding
  import opened TreeWalk
  import opened TreeStoring
  import opened MergeResolution
  import opened RepositoryState
  import opened Operations
  import opened OperationLaws
  import opened Runs
  import opened Migration

  /** One turn of settling conflicts with a side, whose blobs are all stored already. */
  lemma SideStep(index: Index, useOurs: bool, ks: seq<string>, i: nat, odb: set<Object>)
    requires ValidIndex(index) && IndexBlobs(index) <= odb && ks == SortedKeys(index.conflicts.Keys) && i < |ks|
    ensures var choice, content := SideChoice(index, useOurs), Side(index.conflicts[ks[i]], useOurs);
            var before := Settle(index, ks[..i], choice);
            && BlobOrNone(content) && ks[..i + 1] == ks[..i] + [ks[i]]
            && (content.Some? ==> odb + {Blob(content.value.data)} == odb
                                  && Settle(index, ks[..i + 1], choice) ==
                                     ApplyResolved(before, ks[i], Blob(content.value.data)))
            && (content.None? ==> Settle(index, ks[..i + 1], choice) == ConflictRemove(before, ks[i]))
  {
    var choice := SideChoice(index, useOurs);
    SettleNext(index, ks, i, choice);
    SideStored(index, useOurs, ks[i]);
  }

  lemma NothingMore(odb: set<Object>)
    ensures odb + {} == odb
  {
  }

  lemma SideStored(index: Index, useOurs: bool, p: string)
    requires ValidIndex(index) && p in index.conflicts
    ensures var content := SideChoice(index, useOurs)[p];
            && content == Side(index.conflicts[p], useOurs) && BlobOrNone(content)
            && (content.Some? ==> content.value in IndexBlobs(index) && content.value == Blob(content.value.data))
  {
  }

  lemma ReadablePaths(s: State)
    requires Valid(s)
    ensures forall path :: Readable(s, path) <==> path in s.work.Keys + HeadFiles(s).Keys
  {
    forall path ensures Readable(s, path) <==> path in s.work.Keys + HeadFiles(s).Keys {
      ReadsOverlay(s, path);
    }
  }

  /** A listing of the working map followed by what it does not have. */
  lemma ListingComplete(work: set<string>, head: set<string>, files: seq<string>, found: seq<string>)
    requires Lists(files, work) && Lists(found, head - work)
    ensures Distinct(files + found) && (files + found)[..|files|] == files
    ensures forall path :: path in files + found <==> path in work + head
  {
    DistinctConcat(files, found);
    forall path ensures path in files + found <==> path in work + head {
      assert path in files <==> path in ToSet(files);
      assert path in found <==> path in ToSet(found);
    }
  }

  class Repository {
    var odb: set<Object>
    var refs: map<string, Ref>
    var work: map<string, Object>

    var inMemory: bool
    var location: string
    /** The temporary directories on the file system. */
    var disks: map<string, Disk>

    function View(): State
      reads this
    {
      State(odb, refs, work, !inMemory)
    }

    ghost predicate Inv()
      reads this
    {
      Valid(View())
    }

    /** A new virtual repository has no objects, no references, no HEAD and no files. */
    constructor ()
      ensures Inv() && View() == State({}, map[], map[], false) && inMemory
    {
      odb, refs, work := {}, map[], map[];
      inMemory, location, disks := true, "", map[];
    }

    // ---- Files ----

    method WriteFile(path: string, data: Bytes) returns (r: Result<()>)
      requires Inv()
      modifies this`odb, this`refs, this`work
      ensures Inv() && (View(), r) == Operations.WriteFile(old(View()), path, data)
    {
      WriteFileKeeps(View(), path, data);
      var ok := ValidateRepoPath(path);
      if !ok {
        return Err("GIT-PATH-ERROR");
      }
      odb := odb + {Blob(data)};
      work := work[path := Blob(data)];
      return Ok(());
    }

    method DeleteFile(path: string) returns (r: Result<()>)
      requires Inv()
      modifies this`work
      ensures Inv() && (View(), r) == Operations.DeleteFile(old(View()), path)
    {
      DeleteFileKeeps(View(), path);
      var ok := ValidateRepoPath(path);
      if !ok {
        return Err("GIT-PATH-ERROR");
      }
      if path in work {
        work := work - {path};
      } else {
        assert work - {path} == work;
      }
      return Ok(());
    }

    method ReadFile(path: string) returns (r: Result<Option<Bytes>>)
      requires Inv()
      ensures r == Operations.ReadFile(View(), path)
    {
      var ok := ValidateRepoPath(path);
      if !ok {
        return Err("GIT-PATH-ERROR");
      }
      // first the working map
      if path in work {
        return Ok(Some(work[path].data));
      }
      // then the tree of HEAD
      HeadIsCommit(View());
      var head := HeadId(View());
      if head.None? {
        return Ok(None);
      }
      var entry := EntryByPath(head.value.tree, path);
      if entry.None? {
        return Ok(None);
      }
      if !entry.value.Blob? {
        return Err("GIT-READ-ERROR");
      }
      return Ok(Some(entry.value.data));
    }

    /** The files of a stored tree that the working map does not have. */
    method WalkTree(t: Object, prefix: string) returns (found: seq<string>)
      requires WfTree(t)
      ensures Lists(found, Placed(t, prefix, t.entries.Keys).Keys - work.Keys)
      decreases t, 1
    {
      found := [];
      var names := SortedKeys(t.entries.Keys);
      PlacedFirstEnds(t, prefix);
      for i := 0 to |names|
        invariant Lists(found, PlacedFirst(t, prefix, i).Keys - work.Keys)
      {
        var below := WalkEntry(t, prefix, names[i]);
        ListEntry(t, prefix, i, work.Keys, found, below);
        found := found + below;
      }
    }

    method WalkEntry(t: Object, prefix: string, name: string) returns (below: seq<string>)
      requires WfTree(t) && name in t.entries
      ensures Lists(below, EntryFiles(t, prefix, name).Keys - work.Keys)
      decreases t, 0
    {
      var fullPath := FullPath(prefix, name);
      if t.entries[name].Tree? {
        below := WalkTree(t.entries[name], fullPath);
      } else if fullPath !in work {
        below := [fullPath];
      } else {
        below := [];
      }
    }

    /** Lists the working map first, then what only HEAD has; every readable path once. */
    method ListFiles() returns (files: seq<string>)
      requires Inv()
      ensures Distinct(files)
      ensures forall path :: path in files <==> Readable(View(), path)
      ensures |files| >= |work| && files[..|work|] == SortedKeys(work.Keys)
    {
      ReadablePaths(View());
      files := SortedKeys(work.Keys);
      SortedKeysSet(work.Keys);
      AscendingDistinct(files);
      var found := ListHead();
      ListingComplete(work.Keys, HeadFiles(View()).Keys, files, found);
      files := files + found;
    }

    /** The files only HEAD has. */
    method ListHead() returns (found: seq<string>)
      requires Inv()
      ensures Lists(found, HeadFiles(View()).Keys - work.Keys)
    {
      HeadIsCommit(View());
      found := [];
      var head := HeadId(View());
      if head.Some? {
        found := WalkTree(head.value.tree, "");
        PlacedAll(head.value.tree);
      }
    }

    // ---- Commits ----

    /** Groups the working map into directories. */
    method FillDirs() returns (root: Dir)
      ensures root == Fill(SortedKeys(work.Keys), work)
    {
      var paths := SortedKeys(work.Keys);
      root := EMPTY_DIR;
      for i := 0 to |paths|
        invariant root == Fill(paths[..i], work)
      {
        root := InsertPath(root, Split(paths[i]), work[paths[i]]);
        assert paths[..i + 1][..i] == paths[..i];
      }
      SliceAll(paths);
    }

    /** The builder with the blobs of a directory, if their names are acceptable. */
    method InsertBlobs(d: Dir) returns (ok: bool, builder: map<string, Object>)
      ensures ok <==> forall n <- d.blobs :: EntryNameOk(n)
      ensures ok ==> builder == d.blobs
    {
      builder := map[];
      var names := SortedKeys(d.blobs.Keys);
      TakenEnds(d.blobs);
      for i := 0 to |names|
        invariant forall k | 0 <= k < i :: EntryNameOk(names[k])
        invariant builder == Taken(d.blobs, ToSet(names[..i]))
      {
        if !EntryNameOk(names[i]) {
          return false, builder;
        }
        builder := builder[names[i] := d.blobs[names[i]]];
        SliceNext(names, i);
        TakenNext(d.blobs, ToSet(names[..i]), names[i]);
      }
      SliceAll(names);
      SortedKeysSet(d.blobs.Keys);
      return true, builder;
    }

    /** Writes one subdirectory and inserts it into the builder under its name. */
    method AddSubtree(d: Dir, names: seq<string>, i: nat, builder: map<string, Object>, ghost start: set<Object>)
      returns (more: Result<map<string, Object>>)
      requires Inv() && Populated(d) && BlobsStored(d, odb)
      requires WritingTree(d, names, i, builder, start, odb) && i < |names|
      modifies this`odb
      ensures Inv() && Subdirs(d, names[..i + 1]) && odb == start + StoredBelow(d, names[..i + 1])
      ensures more.Ok? <==> SubdirsOk(d, names[..i + 1])
      ensures more.Ok? ==> WritingTree(d, names, i + 1, more.value, start, odb)
      decreases d, 0
    {
      var sub := d.subdirs[names[i]];
      OneMoreWritten(d, names, i, builder, start, odb, sub);
      var tree := BuildTree(sub);
      if tree.Err? {
        return Err(tree.error);
      }
      // the builder refuses an unacceptable name
      if !EntryNameOk(names[i]) {
        return Err("GIT-COMMIT-ERROR");
      }
      return Ok(builder[names[i] := tree.value]);
    }

    /** Writes the subdirectories in order, up to the first that fails. */
    method AddSubtrees(d: Dir, names: seq<string>, blobs: map<string, Object>)
      returns (ok: bool, builder: map<string, Object>)
      requires Inv() && Populated(d) && BlobsStored(d, odb) && Subdirs(d, names) && blobs == d.blobs
      modifies this`odb
      ensures Inv() && odb == old(odb) + StoredBelow(d, names)
      ensures ok <==> SubdirsOk(d, names)
      ensures ok ==> WritingTree(d, names, |names|, builder, old(odb), odb)
      decreases d, 1
    {
      builder := blobs;
      NothingWritten(d, names, odb);
      for i := 0 to |names|
        invariant Inv() && WritingTree(d, names, i, builder, old(odb), odb)
      {
        StoredGrows(d, old(odb), odb);
        var more := AddSubtree(d, names, i, builder, old(odb));
        if more.Err? {
          StoredStops(d, names, i + 1);
          return false, builder;
        }
        builder := more.value;
      }
      SliceAll(names);
      return true, builder;
    }

    /** Fills the builder of a directory. */
    method AddEntries(d: Dir, names: seq<string>) returns (ok: bool, builder: map<string, Object>)
      requires Inv() && Populated(d) && BlobsStored(d, odb) && names == SortedKeys(d.subdirs.Keys)
      modifies this`odb
      ensures Inv() && (ok <==> NamesOk(d))
      ensures ok ==> Subdirs(d, names) && WritingTree(d, names, |names|, builder, old(odb), odb)
      ensures !ok ==> odb == old(odb) + Stored(d)
      decreases d, 2
    {
      StoredIs(d, names);
      ok, builder := InsertBlobs(d);
      if ok {
        ok, builder := AddSubtrees(d, names, builder);
      } else {
        NothingMore(odb);
      }
    }

    /** Writes a directory bottom-up. It fails just when some name in it is unacceptable; the
        trees written until then stay in the store. */
    method BuildTree(d: Dir) returns (r: Result<Object>)
      requires Inv() && Populated(d) && BlobsStored(d, odb)
      modifies this`odb
      ensures Inv() && odb == old(odb) + Stored(d)
      ensures r == if NamesOk(d) then Ok(Build(d)) else Err("GIT-COMMIT-ERROR")
      decreases d, 3
    {
      StoreDir(View(), d);
      var ok, builder := AddEntries(d, SortedKeys(d.subdirs.Keys));
      if ok {
        StoredIs(d, SortedKeys(d.subdirs.Keys));
        AllWritten(d, SortedKeys(d.subdirs.Keys), builder, old(odb), odb);
        odb := odb + {Tree(builder)};
        r := Ok(Tree(builder));
      } else {
        r := Err("GIT-COMMIT-ERROR");
      }
    }

    /** Commits the whole working map on top of HEAD, or as the first commit of main. */
    method Commit(info: string) returns (r: Result<Object>)
      requires Inv()
      modifies this`odb, this`refs, this`work
      ensures Inv() && (View(), r) == CommitAll(old(View()), info)
    {
      if work == map[] {
        return Err("GIT-COMMIT-ERROR");
      }
      var root := FillDirs();
      WorkDirsShape(View(), root);
      StoreDir(View(), root);
      CommitLaw(View(), info);
      var tree := BuildTree(root);
      if tree.Err? {
        return tree;
      }
      r := CommitStored(tree.value, info);
    }

    /** Creates the commit of a stored tree and moves the reference it belongs to. */
    method CommitStored(tree: Object, info: string) returns (r: Result<Object>)
      requires Inv() && WfTree(tree) && tree in odb
      modifies this`odb, this`refs, this`work
      ensures Inv() && (View(), r) == CommitTree(old(View()), tree, info)
    {
      if HeadId(View()).Some? {
        CommitOnHead(View(), tree, info);
      } else {
        FirstCommit(View(), tree, info);
      }
      // the parent, and the reference to move
      var head := HeadId(View());
      var parents, updateRef := [], MAIN;
      if head.Some? {
        parents := [head.value];
        updateRef := if HEAD in refs && refs[HEAD].Symbolic? then refs[HEAD].target else HEAD;
      }
      r := CreateCommit(updateRef, tree, parents, info);
      // the first commit makes HEAD a symbolic reference to main
      if r.Err? {
        r := Err("GIT-COMMIT-ERROR");
      } else if head.None? {
        refs := refs[HEAD := Symbolic(MAIN)];
      }
    }

    method CreateCommit(updateRef: string, tree: Object, parents: seq<Object>, info: string)
      returns (r: Result<Object>)
      modifies this`odb, this`refs
      ensures (View(), r) == CommitCreate(old(View()), updateRef, tree, parents, info)
    {
      var (after, created) := CommitCreate(View(), updateRef, tree, parents, info);
      odb, refs, r := after.odb, after.refs, created;
    }

    // ---- Branches ----

    method CreateBranch(name: string, nameOk: bool, from: Option<Rev>) returns (r: Result<()>)
      requires Inv()
      modifies this`refs
      ensures Inv() && (View(), r) == Operations.CreateBranch(old(View()), name, nameOk, from)
    {
      CreateBranchKeeps(View(), name, nameOk, from);
      var target: Option<Object>;
      if from.Some? && from.value.text != "" {
        target := RevParse(View(), from.value);
      } else {
        target := HeadId(View());
      }
      if target.None? || !target.value.Commit? {
        return Err("GIT-BRANCH-ERROR");
      }
      if !nameOk || Branch(name) in refs || !RefFree(View(), Branch(name)) {
        return Err("GIT-BRANCH-ERROR");
      }
      refs := refs[Branch(name) := Direct(target.value)];
      return Ok(());
    }

    /** Deletes a branch that HEAD is not on. */
    method DeleteBranch(name: string) returns (r: Result<()>)
      requires Inv()
      modifies this`refs
      ensures Inv() && (View(), r) == Operations.DeleteBranch(old(View()), name)
    {
      DeleteBranchLaw(View(), name);
      if Branch(name) !in refs || HeadTarget(View()) == Branch(name) {
        return Err("GIT-BRANCH-ERROR");
      }
      refs := refs - {Branch(name)};
      return Ok(());
    }

    /** A tag on HEAD or on `from`, annotated when a message is given. */
    method CreateTag(name: string, nameOk: bool, note: Option<string>, from: Option<Rev>) returns (r: Result<()>)
      requires Inv()
      modifies this`odb, this`refs
      ensures Inv() && (View(), r) == Operations.CreateTag(old(View()), name, nameOk, note, from)
    {
      CreateTagKeeps(View(), name, nameOk, note, from);
      var target: Option<Object>;
      if from.Some? && from.value.text != "" {
        target := RevParse(View(), from.value);
      } else {
        target := HeadId(View());
      }
      if target.None? || !nameOk || TagRef(name) in refs {
        return Err("GIT-TAG-ERROR");
      }
      var o := target.value;
      if note.Some? && note.value != "" {
        o := Object.Tag(target.value, note.value);
      }
      var free := RefFree(View(), TagRef(name));
      odb := odb + {o};
      if !free {
        return Err("GIT-TAG-ERROR");
      }
      refs := refs[TagRef(name) := Direct(o)];
      return Ok(());
    }

    /** Adds one entry of a stored tree, or everything under it, to the working map. */
    method PopulateEntry(t: Object, prefix: string, name: string)
      requires WfTree(t) && name in t.entries
      modifies this`work
      ensures var e := t.entries[name];
              work == if e.Tree? then old(work) + Placed(e, FullPath(prefix, name), e.entries.Keys)
                      else old(work)[FullPath(prefix, name) := e]
      decreases t, 0
    {
      if t.entries[name].Tree? {
        PopulateFromTree(t.entries[name], FullPath(prefix, name));
      } else {
        work := work[FullPath(prefix, name) := t.entries[name]];
      }
    }

    /** Adds the files of a stored tree to the working map. */
    method PopulateFromTree(t: Object, prefix: string)
      requires WfTree(t)
      modifies this`work
      ensures work == old(work) + Placed(t, prefix, t.entries.Keys)
      decreases t, 1
    {
      var names := SortedKeys(t.entries.Keys);
      PlacedFirstEnds(t, prefix);
      ghost var before := work;
      PlusNothing(before);
      for i := 0 to |names|
        invariant work == before + PlacedFirst(t, prefix, i)
      {
        ghost var mid := work;
        PopulateEntry(t, prefix, names[i]);
        AddEntry(t, prefix, i, before, mid, work);
      }
    }

    /** Empties the working map and fills it from a tree. */
    method ReplaceWork(t: Object)
      requires WfTree(t)
      modifies this`work
      ensures work == Flatten(t)
    {
      work := map[];
      PopulateFromTree(t, "");
      PlacedAll(t);
      PlusNothing(Placed(t, "", t.entries.Keys));
    }

    method Checkout(rev: Rev) returns (r: Result<()>)
      requires Inv()
      modifies this`refs, this`work
      ensures Inv() && (View(), r) == Operations.Checkout(old(View()), rev)
    {
      CheckoutKeeps(View(), rev);
      RevParseInStore(View(), rev);
      var target := RevParse(View(), rev);
      if target.None? {
        return Err("GIT-CHECKOUT-ERROR");
      }
      var commit := Peel(target.value);
      if commit.None? {
        return Err("GIT-CHECKOUT-ERROR");
      }
      PeelInStore(View(), target.value);
      ReplaceWork(commit.value.tree);
      var fullRef := Branch(rev.text);
      if fullRef in refs {
        refs := refs[HEAD := Symbolic(fullRef)];
      } else {
        refs := refs[HEAD := Direct(commit.value)];
      }
      return Ok(());
    }

    // ---- Merging ----

    /** The resolved entries of the index become the working map. */
    method PopulateFromIndex(ix: Index)
      modifies this`work
      ensures work == ix.entries
    {
      work := map[];
      var paths := SortedKeys(ix.entries.Keys);
      TakenEnds(ix.entries);
      for i := 0 to |paths|
        invariant work == Taken(ix.entries, ToSet(paths[..i]))
      {
        work := work[paths[i] := ix.entries[paths[i]]];
        SliceNext(paths, i);
        TakenNext(ix.entries, ToSet(paths[..i]), paths[i]);
      }
      SliceAll(paths);
      SortedKeysSet(ix.entries.Keys);
    }

    /** A merge commit on top of `ours`; the working map follows. */
    method CreateMergeCommit(ours: Object, theirs: Object, ix: Index, info: string) returns (r: Result<Object>)
      requires Inv() && ValidIndex(ix) && ix.entries.Values <= odb
      requires ours.Commit? && ours in odb && theirs.Commit? && theirs in odb
      modifies this`odb, this`refs, this`work
      ensures Inv() && (View(), r) == Operations.CreateMergeCommit(old(View()), ours, theirs, ix, info)
    {
      ghost var s := View();
      if ix.conflicts != map[] {
        return Err("GIT-MERGE-ERROR");
      }
      var tree := TreeOf(ix.entries);
      odb := odb + Subtrees(tree);
      r := CommitIndex(tree, [ours, theirs], ix, info);
      if r.Err? {
        r := Err("GIT-MERGE-ERROR");
      }
      assert (View(), r) == Operations.CreateMergeCommit(s, ours, theirs, ix, info) by {
        MergeCommitIs(s, ours, theirs, ix, info);
      }
      assert Inv() by { CreateMergeCommitKeeps(s, ours, theirs, ix, info); }
    }

    /** Commits the tree of an index where HEAD is; the working map follows. */
    method CommitIndex(tree: Object, parents: seq<Object>, ix: Index, info: string) returns (r: Result<Object>)
      modifies this`odb, this`refs, this`work
      ensures var (after, c) := CommitCreate(old(View()), HeadTarget(old(View())), tree, parents, info);
              View() == (if c.Ok? then after.(work := ix.entries) else after) && r == c
    {
      var updateRef := if HEAD in refs && refs[HEAD].Symbolic? then refs[HEAD].target else HEAD;
      r := CreateCommit(updateRef, tree, parents, info);
      if r.Ok? {
        PopulateFromIndex(ix);
      }
    }

    /** Stores resolved content and puts it at stage 0 of its path. */
    method ApplyResolvedContent(ix: Index, path: string, data: Bytes) returns (ix': Index)
      modifies this`odb
      ensures odb == old(odb) + {Blob(data)} && ix' == ApplyResolved(ix, path, Blob(data))
    {
      odb := odb + {Blob(data)};
      ix' := ConflictRemove(ix, path);
      ix' := IndexAdd(ix', path, Blob(data));
    }

    /** Settles every conflict with one side. */
    method ResolveWithSide(index: Index, useOurs: bool) returns (ix: Index, resolved: seq<string>)
      requires ValidIndex(index) && IndexBlobs(index) <= odb
      modifies this`odb
      ensures ix == TakeSide(index, useOurs) && resolved == SortedKeys(index.conflicts.Keys) && odb == old(odb)
    {
      ix, resolved := index, [];
      var conflicts := Conflicts(index);
      ghost var ks := SortedKeys(index.conflicts.Keys);
      for i := 0 to |conflicts|
        invariant odb == old(odb)
        invariant ix == Settle(index, ks[..i], SideChoice(index, useOurs)) && resolved == ks[..i]
      {
        var ci := conflicts[i];
        var content := if useOurs then ci.sides.ours else ci.sides.theirs;
        SideStep(index, useOurs, ks, i, odb);
        if content.Some? {
          ix := ApplyResolvedContent(ix, ci.path, content.value.data);
        } else {
          ix := ConflictRemove(ix, ci.path);
        }
        resolved := resolved + [ci.path];
      }
      SliceAll(ks);
    }

    /** The locked first phase of a merge. */
    method BeginMerge(rev: Rev, opts: MergeOpts, merged: Option<Index>) returns (r: Result<Begun>)
      requires Inv() && (merged.Some? ==> ValidIndex(merged.value))
      modifies this`odb, this`refs, this`work
      ensures Inv() && (View(), r) == Operations.BeginMerge(old(View()), rev, opts, merged)
    {
      BeginMergeLaw(View(), rev, opts, merged);
      if opts.strategy != "detect" && opts.strategy != "ours" && opts.strategy != "theirs"
          && opts.strategy != "callback" {
        return Err("GIT-MERGE-OPTION-ERROR");
      }
      if opts.strategy == "callback" && !opts.hasResolver {
        return Err("GIT-MERGE-OPTION-ERROR");
      }
      RevParseInStore(View(), rev);
      HeadIsCommit(View());
      var target := RevParse(View(), rev);
      if target.None? || !target.value.Commit? {
        return Err("GIT-MERGE-ERROR");
      }
      var theirs, head := target.value, HeadRef(View());
      if head.None? {
        return Err("GIT-MERGE-ERROR");
      }
      var ours := head.value.id;
      if IsAncestor(theirs, ours) {
        return Ok(Done(MergeResult(true, false, false, None, [], [])));
      }
      if IsAncestor(ours, theirs) {
        FastForwardTo(theirs);
        return Ok(Done(MergeResult(false, true, false, Some(theirs), [], [])));
      }
      if merged.None? {
        return Err("GIT-MERGE-ERROR");
      }
      r := MergeWithIndex(ours, theirs, opts, merged.value);
    }

    /** Moves the reference behind HEAD, and the working map with it. */
    method FastForwardTo(theirs: Object)
      requires Inv() && HeadRef(View()).Some? && theirs.Commit? && theirs in odb
      modifies this`work, this`refs
      ensures View() == FastForward(old(View()), theirs)
    {
      assert theirs.tree in Children(theirs);
      ReplaceWork(theirs.tree);
      refs := refs[HeadRef(View()).value.name := Direct(theirs)];
    }

    /** The rest of the first phase, once libgit2 has computed an index. */
    method MergeWithIndex(ours: Object, theirs: Object, opts: MergeOpts, index: Index) returns (r: Result<Begun>)
      requires Inv() && ValidIndex(index) && OptsOk(opts) && HeadId(View()) == Some(ours)
      requires ours.Commit? && ours in odb && theirs.Commit? && theirs in odb
      modifies this`odb, this`refs, this`work
      ensures Inv() && (View(), r) == MergeIndexed(old(View()), ours, theirs, opts, index)
    {
      MergeIndexedLaw(View(), ours, theirs, opts, index);
      IndexBlobsClosed(View(), index);
      odb := odb + IndexBlobs(index);
      if index.conflicts == map[] {
        r := CommitSettled(ours, theirs, opts, index, false, []);
      } else if opts.strategy == "ours" || opts.strategy == "theirs" {
        TakeSideBlobs(index, opts.strategy == "ours");
        var ix, paths := ResolveWithSide(index, opts.strategy == "ours");
        r := CommitSettled(ours, theirs, opts, ix, true, paths);
      } else if opts.strategy == "detect" {
        r := Ok(Done(MergeResult(false, false, true, None, Conflicts(index), [])));
      } else {
        r := Ok(AwaitAnswers(Pending(ours, theirs, index, opts.noCommit, opts.info)));
      }
    }

    method CommitSettled(ours: Object, theirs: Object, opts: MergeOpts, ix: Index, conflicts: bool, paths: seq<string>)
      returns (r: Result<Begun>)
      requires Inv() && ValidIndex(ix) && ix.entries.Values <= odb
      requires ours.Commit? && ours in odb && theirs.Commit? && theirs in odb
      modifies this`odb, this`refs, this`work
      ensures Inv() && (View(), r) == Settled(old(View()), ours, theirs, ix, opts, conflicts, paths)
    {
      if opts.noCommit {
        return Ok(Done(MergeResult(false, false, conflicts, None, [], paths)));
      }
      var created := CreateMergeCommit(ours, theirs, ix, opts.info);
      match created {
        case Err(e) => r := Err(e);
        case Ok(c) => r := Ok(Done(MergeResult(false, false, conflicts, Some(c), [], paths)));
      }
    }

    /** The locked last phase of a merge whose resolver has answered. */
    method FinishMerge(p: Pending, answers: seq<Answer>) returns (r: Result<MergeResult>)
      requires Inv() && ValidPending(View(), p) && |answers| == |p.index.conflicts|
      modifies this`odb, this`refs, this`work
      ensures Inv() && (View(), r) == Operations.FinishMerge(old(View()), p, answers)
    {
      AnswersApplied(View(), p, answers);
      var ix, result := ApplyAll(p, answers);
      r := ConcludeWith(p, ix, result);
    }

    method ApplyAll(p: Pending, answers: seq<Answer>) returns (ix: Index, result: MergeResult)
      requires |answers| == |p.index.conflicts| && AllBlobs(Resolutions(Conflicts(p.index), answers))
      modifies this`odb
      ensures (View(), ix, result) == Applied(old(View()), p, answers)
    {
      var conflicts := Conflicts(p.index);
      var resolutions, unresolved := CollectAnswers(conflicts, answers);
      var paths;
      ix, paths := ApplyResolutions(p.index, resolutions);
      result := MergeResult(false, false, true, None, unresolved, paths);
    }

    /** Commits what the resolver settled, if it settled everything. */
    method ConcludeWith(p: Pending, ix: Index, result: MergeResult) returns (r: Result<MergeResult>)
      requires Concludable(View(), p, ix)
      modifies this`odb, this`refs, this`work
      ensures Inv() && (View(), r) == Conclude(old(View()), p, ix, result)
    {
      if result.conflictList == [] && !p.noCommit {
        var created := CreateMergeCommit(p.ours, p.theirs, ix, p.info);
        match created {
          case Err(e) => r := Err(e);
          case Ok(c) => r := Ok(result.(commitId := Some(c)));
        }
      } else {
        r := Ok(result);
      }
    }

    method ApplyResolutions(index: Index, resolutions: map<string, Object>) returns (ix: Index, resolved: seq<string>)
      requires AllBlobs(resolutions)
      modifies this`odb
      ensures ix == ApplyAnswers(index, resolutions) && resolved == SortedKeys(resolutions.Keys)
      ensures odb == old(odb) + resolutions.Values
    {
      ix, resolved := index, [];
      var paths := SortedKeys(resolutions.Keys);
      SliceAll(paths);
      ContentsEnds(resolutions, odb);
      ghost var start := odb;
      for i := 0 to |paths|
        invariant ix == Settle(index, paths[..i], AllSome(resolutions)) && resolved == paths[..i]
        invariant odb == WithContents(start, resolutions, ToSet(paths[..i]))
      {
        var path := paths[i];
        ApplyNext(index, resolutions, paths, i);
        SliceNext(paths, i);
        ContentsNext(start, resolutions, ToSet(paths[..i]), path);
        ix := ApplyResolvedContent(ix, path, resolutions[path].data);
        resolved := resolved + [path];
      }
    }

    /** A whole merge: the lock is released while the resolver answers, so that on its return
        the repository is whatever others have made of it. */
    method Merge(c: MergeCall) returns (r: Result<MergeResult>)
      requires Inv() && MergeCallOk(View(), c)
      modifies this`odb, this`refs, this`work
      ensures Inv() && (View(), r) == Operations.Merge(old(View()), c)
    {
      MergeLasts(View(), c);
      var begun := BeginMerge(c.rev, c.opts, c.merged);
      r := GoOn(begun, c);
    }

    method GoOn(begun: Result<Begun>, c: MergeCall) returns (r: Result<MergeResult>)
      requires Inv()
      requires begun.Ok? && begun.value.AwaitAnswers? ==>
                 && Valid(c.meanwhile) && c.meanwhile.onDisk == !inMemory
                 && ValidPending(c.meanwhile, begun.value.pending)
      modifies this`odb, this`refs, this`work
      ensures Inv() && (View(), r) == AfterBegin(old(View()), begun, c)
    {
      match begun {
        case Err(e) =>
          r := Err(e);
        case Ok(Done(result)) =>
          r := Ok(result);
        case Ok(AwaitAnswers(p)) =>
          odb, refs, work := c.meanwhile.odb, c.meanwhile.refs, c.meanwhile.work;
          if |c.answers| != |p.index.conflicts| {
            return Err("resolver");
          }
          r := FinishMerge(p, c.answers);
      }
    }

    // ---- Remotes ----

    /** A fetch; `after` is what it leaves behind. */
    method Fetch(after: State, ok: bool) returns (r: Result<()>)
      requires Inv() && Fetches(View(), after)
      modifies this`odb, this`refs
      ensures Inv() && View() == after && (r.Ok? <==> ok) && (r.Err? ==> r.error == "GIT-FETCH-ERROR")
    {
      FetchesKeeps(View(), after);
      odb, refs := after.odb, after.refs;
      return if ok then Ok(()) else Err("GIT-FETCH-ERROR");
    }

    /** A fetch and a merge of what the current branch tracks. */
    method Pull(e: Remote) returns (r: Result<MergeResult>)
      requires Inv() && RemoteOk(View(), e)
      modifies this`odb, this`refs, this`work
      ensures Inv() && (View(), r) == Operations.Pull(old(View()), e)
    {
      PullLasts(View(), e);
      var fetched := Fetch(e.fetched, e.fetchOk);
      if fetched.Err? {
        return Err(fetched.error);
      }
      // others may act before the branch is looked at, and again before the merge starts
      odb, refs, work := e.looked.odb, e.looked.refs, e.looked.work;
      var branch := CurrentBranch(View());
      if branch.None? || branch.value == "" {
        return Err("GIT-PULL-ERROR");
      }
      odb, refs, work := e.merging.odb, e.merging.refs, e.merging.work;
      r := Merge(e.merge);
    }

    /** A push, which may move remote-tracking references. */
    method Push(after: State, outcome: Result<()>) returns (r: Result<()>)
      requires Inv() && Fetches(View(), after)
      modifies this`odb, this`refs
      ensures Inv() && View() == after && r == outcome
    {
      FetchesKeeps(View(), after);
      odb, refs := after.odb, after.refs;
      return outcome;
    }

    // ---- Migration ----

    /** Copies every object into a new directory, in any order. The trace holds what the
        directory contains after each step. */
    static method CopyObjects(odb: set<Object>, start: Disk, f: Faults)
        returns (disk: Disk, ok: bool, ghost trace: seq<Disk>)
      requires start.odb == {} && Safe(start)
      ensures ok <==> ObjectsCopy(odb, f)
      ensures ok ==> disk == start.(odb := odb)
      ensures Chain(trace, start, disk)
    {
      disk, trace := start, [start];
      var todo, count: nat := odb, 0;
      while todo != {}
        invariant CopiedObjects(odb, disk.odb, todo, count, f) && disk.refs == start.refs
        invariant Chain(trace, start, disk)
        decreases todo
      {
        var o :| o in todo;
        count := count + 1;
        CopyOneMore(odb, disk.odb, todo, count - 1, f, o);
        if count in Noticed(f.cancelAtObject) || o in f.unreadable || o in f.unwritable {
          return disk, false, trace;
        }
        var next := disk.(odb := disk.odb + {o});
        ChainSnoc(trace, start, disk, next);
        disk, trace := next, trace + [next];
        todo := todo - {o};
      }
      return disk, true, trace;
    }

    /** Creates every reference of the list; only a cancellation stops it. */
    static method CopyRefs(odb: set<Object>, refs: map<string, Ref>, start: Disk, f: Faults, cancelled: set<nat>)
      returns (disk: Disk, ok: bool, ghost trace: seq<Disk>)
      requires Safe(Disk(odb, refs)) && start.odb == odb && Safe(start)
      ensures ok <==> NoneBelow(cancelled, |refs|)
      ensures ok ==> disk == start.(refs := CreateListed(start.refs, refs, SortedKeys(refs.Keys), f))
      ensures Chain(trace, start, disk) && disk.odb == odb
    {
      disk, ok, trace := CopyNamed(odb, refs, SortedKeys(refs.Keys), start, f, cancelled);
    }

    static method CopyNamed(odb: set<Object>, refs: map<string, Ref>, names: seq<string>, start: Disk, f: Faults,
                            cancelled: set<nat>)
      returns (disk: Disk, ok: bool, ghost trace: seq<Disk>)
      requires Safe(Disk(odb, refs)) && start.odb == odb && Safe(start) && forall n <- names :: n in refs
      ensures ok <==> NoneBelow(cancelled, |names|)
      ensures ok ==> disk == start.(refs := CreateListed(start.refs, refs, names, f))
      ensures Chain(trace, start, disk) && disk.odb == odb
    {
      disk, trace := start, [start];
      for i := 0 to |names|
        invariant CopiedSoFar(disk, odb, CreateListed(start.refs, refs, names[..i], f))
        invariant NoneBelow(cancelled, i)
        invariant Chain(trace, start, disk)
      {
        NoneBelowNext(cancelled, i);
        if i in cancelled {
          return disk, false, trace;
        }
        CreateListedNext(start.refs, refs, names, i, f);
        var next := CopyRef(odb, refs, disk, names[i], f);
        ChainSnoc(trace, start, disk, next);
        disk, trace := next, trace + [next];
      }
      SliceAll(names);
      return disk, true, trace;
    }

    /** Creates one reference, or, unnoticed, does not. */
    static method CopyRef(odb: set<Object>, refs: map<string, Ref>, start: Disk, name: string, f: Faults)
      returns (disk: Disk)
      requires Safe(Disk(odb, refs)) && CopiedSoFar(start, odb, start.refs) && name in refs
      ensures CopiedSoFar(disk, odb, CreateRef(start.refs, refs, name, f)) && OneStep(start, disk)
    {
      disk := start;
      if name !in f.refLookupFails && name !in f.refCreateFails && PathFree(disk.refs.Keys, name) {
        disk := disk.(refs := disk.refs[name := refs[name]]);
      }
    }

    /** The references, when they can be listed. */
    static method CopyAllRefs(odb: set<Object>, refs: map<string, Ref>, start: Disk, f: Faults)
      returns (disk: Disk, ok: bool, ghost trace: seq<Disk>)
      requires Safe(Disk(odb, refs)) && start.odb == odb && Safe(start)
      ensures ok <==> RefsCopy(refs, f)
      ensures ok ==> disk == start.(refs := CreateAll(start.refs, refs, f))
      ensures Chain(trace, start, disk) && disk.odb == odb && Safe(disk)
    {
      if f.refListOk {
        disk, ok, trace := CopyRefs(odb, refs, start, f, Noticed(f.cancelAtRef));
      } else {
        disk, ok, trace := start, true, [start];
      }
    }

    /** HEAD, which the list may not have had. */
    static method CopyHead(odb: set<Object>, refs: map<string, Ref>, start: Disk, f: Faults) returns (disk: Disk)
      requires Safe(Disk(odb, refs)) && start.odb == odb && Safe(start)
      ensures disk == start.(refs := CreateHead(start.refs, refs, f)) && OneStep(start, disk) && Safe(disk)
    {
      disk := start;
      if HEAD in refs && f.headLookupOk && f.headCreateOk && PathFree(disk.refs.Keys, HEAD) {
        disk := disk.(refs := disk.refs[HEAD := refs[HEAD]]);
      }
    }

    /** Fills a new directory, unless a step fails that is not ignored. */
    static method FillDisk(odb: set<Object>, refs: map<string, Ref>, start: Disk, f: Faults)
      returns (disk: Disk, ok: bool, ghost trace: seq<Disk>)
      requires Safe(Disk(odb, refs)) && start == Disk({}, InitialRefs(f))
      ensures ok <==> ObjectsCopy(odb, f) && RefsCopy(refs, f)
      ensures ok ==> disk == Disk(odb, CopiedRefs(refs, f))
      ensures Chain(trace, start, disk)
    {
      disk, ok, trace := CopyObjects(odb, start, f);
      if !ok {
        return;
      }
      ghost var t2;
      ghost var mid := disk;
      disk, ok, t2 := CopyAllRefs(odb, refs, disk, f);
      ChainJoin(trace, t2, start, mid, disk);
      trace := trace + t2[1..];
      if !ok {
        return;
      }
      var next := CopyHead(odb, refs, disk, f);
      ChainSnoc(trace, start, disk, next);
      disk, trace := next, trace + [next];
    }

    /** Moves an in-memory repository to a new directory, or leaves everything as it was. The
        trace is what the directory contains step by step. */
    method MigrateToDisk(f: Faults) returns (r: Result<()>, ghost trace: seq<Disk>)
      requires Inv() && IsBranchRef(f.initHead) && (f.tempDir.Some? ==> f.tempDir.value !in disks)
      modifies this
      ensures Inv()
      ensures !old(inMemory) ==> r.Ok?
      ensures old(inMemory) ==> (r.Ok? <==> Succeeds(old(View()), f))
      ensures r.Err? || !old(inMemory) ==>
                View() == old(View()) && inMemory == old(inMemory) && location == old(location) && disks == old(disks)
      ensures r.Ok? && old(inMemory) ==>
                && View() == Migrated(old(View()), f) && !inMemory && Some(location) == f.tempDir
                && disks == old(disks)[location := Disk(odb, refs)]
                && Chain(trace, Disk({}, InitialRefs(f)), Disk(odb, refs))
      ensures trace != [] ==> Chain(trace, Disk({}, InitialRefs(f)), trace[|trace| - 1])
    {
      trace := [];
      if !inMemory {
        return Ok(()), trace;
      }
      if f.tempDir.None? {
        return Err("GIT-VIRTUAL-ERROR"), trace;
      }
      var dir, ok := f.tempDir.value, false;
      ghost var before := disks;
      ok, trace := MakeDisk(dir, f);
      if !ok {
        // every failure removes the new directory
        disks := disks - {dir};
        assert disks == before;
        return Err("GIT-VIRTUAL-ERROR"), trace;
      }
      // the swap: the directory is the repository now
      MigratedValid(View(), f);
      var disk := disks[dir];
      odb, refs := disk.odb, disk.refs;
      location, inMemory := dir, false;
      return Ok(()), trace;
    }

    /** Makes the directory and copies everything into it. */
    method MakeDisk(dir: string, f: Faults) returns (ok: bool, ghost trace: seq<Disk>)
      requires Inv()
      modifies this`disks
      ensures dir in disks && disks == old(disks)[dir := disks[dir]]
      ensures ok <==> f.initOk && f.odbsOk && ObjectsCopy(odb, f) && RefsCopy(refs, f)
      ensures ok ==> disks[dir] == Disk(odb, CopiedRefs(refs, f))
      ensures f.initOk && f.odbsOk ==> Chain(trace, Disk({}, InitialRefs(f)), disks[dir])
      ensures !(f.initOk && f.odbsOk) ==> trace == []
    {
      ok, trace := false, [];
      var disk := Disk({}, map[]);
      if f.initOk && f.odbsOk {
        disk := Disk({}, InitialRefs(f));
        disk, ok, trace := FillDisk(odb, refs, disk, f);
      }
      disks := disks[dir := disk];
    }
  }

  function WithContents(start: set<Object>, m: map<string, Object>, keys: set<string>): set<Object> {
    start + set k | k in keys && k in m :: m[k]
  }

  lemma ContentsNext(start: set<Object>, m: map<string, Object>, keys: set<string>, k: string)
    requires k in m
    ensures WithContents(start, m, keys + {k}) == WithContents(start, m, keys) + {m[k]}
    ensures m[k].Blob? ==> m[k] == Blob(m[k].data)
  {
  }

  lemma ContentsEnds(m: map<string, Object>, start: set<Object>)
    ensures WithContents(start, m, {}) == start && WithContents(start, m, m.Keys) == start + m.Values
    ensures ToSet(SortedKeys(m.Keys)) == m.Keys
  {
    forall v <- m.Values ensures v in WithContents(start, m, m.Keys) {
      var k :| k in m && m[k] == v;
    }
  }
}
