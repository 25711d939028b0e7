/** Walking a stored tree with a path prefix, entry by entry: what checking out and listing do. */
module TreeWalk {
  import opened Text
  import opened Paths
  import opened Objects

  function FullPath(prefix: string, p: string): string {
    if prefix == "" then p else prefix + "/" + p
  }

  function BelowPrefix(prefix: string, q: string): string {
    if prefix == "" then q else if |q| > |prefix| then q[|prefix| + 1..] else q
  }

  lemma FullPathBack(prefix: string, p: string)
    ensures BelowPrefix(prefix, FullPath(prefix, p)) == p
  {
  }

  /** The files of a tree under the entries `names`, with their full paths. */
  function Placed(t: Object, prefix: string, names: set<string>): map<string, Object> {
    var files := Flatten(t);
    map q | q in (set p | p in files && Split(p)[0] in names :: FullPath(prefix, p))
        && BelowPrefix(prefix, q) in files ::
      files[BelowPrefix(prefix, q)]
  }

  /** `q` is the full path of a file of the tree under one of the entries. */
  predicate IsPlaced(t: Object, prefix: string, names: set<string>, q: string) {
    var p := BelowPrefix(prefix, q);
    p in Flatten(t) && Split(p)[0] in names && q == FullPath(prefix, p)
  }

  lemma PlacedAt(t: Object, prefix: string, names: set<string>, q: string)
    ensures q in Placed(t, prefix, names) <==> IsPlaced(t, prefix, names, q)
    ensures IsPlaced(t, prefix, names, q) ==> Placed(t, prefix, names)[q] == Flatten(t)[BelowPrefix(prefix, q)]
  {
    if q in Placed(t, prefix, names) {
      var p :| p in Flatten(t) && Split(p)[0] in names && FullPath(prefix, p) == q;
      FullPathBack(prefix, p);
    }
  }

  lemma PlacedNone(t: Object, prefix: string)
    ensures Placed(t, prefix, {}) == map[]
  {
  }

  lemma PlacedAll(t: Object)
    requires WfTree(t)
    ensures Placed(t, "", t.entries.Keys) == Flatten(t)
  {
    var m := Placed(t, "", t.entries.Keys);
    forall q ensures q in m <==> q in Flatten(t)
             ensures q in m ==> m[q] == Flatten(t)[q]
    {
      PlacedAllAt(t, q);
    }
    SameMap(m, Flatten(t));
  }

  lemma SameMap(a: map<string, Object>, b: map<string, Object>)
    requires forall q :: q in a <==> q in b
    requires forall q | q in a :: a[q] == b[q]
    ensures a == b
  {
  }

  lemma PlacedAllAt(t: Object, q: string)
    requires WfTree(t)
    ensures q in Placed(t, "", t.entries.Keys) <==> q in Flatten(t)
    ensures q in Flatten(t) ==> Placed(t, "", t.entries.Keys)[q] == Flatten(t)[q]
  {
    PlacedAt(t, "", t.entries.Keys, q);
    FlattenAt(t, q);
    FullPathBack("", q);
  }

  /** The files under one entry: the blob itself, or the files of the subtree. */
  function EntryFiles(t: Object, prefix: string, n: string): map<string, Object>
    requires t.Tree? && n in t.entries
  {
    var e := t.entries[n];
    if e.Tree? then Placed(e, FullPath(prefix, n), e.entries.Keys) else map[FullPath(prefix, n) := e]
  }

  lemma FlattenBelow(t: Object, n: string, p: string)
    requires WfTree(t) && n in t.entries && t.entries[n].Tree?
    ensures n + "/" + p in Flatten(t) <==> p in Flatten(t.entries[n])
    ensures p in Flatten(t.entries[n]) ==> Flatten(t)[n + "/" + p] == Flatten(t.entries[n])[p]
    ensures Split(n + "/" + p)[0] == n
  {
    SplitFirst(n, p);
    assert ([n] + Split(p))[1..] == Split(p);
    FlattenAt(t, n + "/" + p);
    FlattenAt(t.entries[n], p);
  }

  lemma FlattenEntry(t: Object, n: string)
    requires WfTree(t) && n in t.entries
    ensures Split(n) == [n]
    ensures t.entries[n].Blob? ==> n in Flatten(t) && Flatten(t)[n] == t.entries[n]
  {
    assert Find(n, '/') < 0;
    assert [n][1..] == [];
    FlattenAt(t, n);
  }

  /** Where a flattened path lies under the entry its first component names. */
  lemma FlattenFirst(t: Object, p: string) returns (n: string, rest: string)
    requires WfTree(t) && p in Flatten(t)
    ensures n == Split(p)[0] && n in t.entries
    ensures t.entries[n].Blob? ==> p == n
    ensures t.entries[n].Tree? ==> p == n + "/" + rest && rest in Flatten(t.entries[n])
  {
    FlattenAt(t, p);
    n, rest := SplitCases(p);
    if '/' in p {
      assert Entry(t, Split(p)) == Entry(t.entries[n], Split(p)[1..]);
      assert Split(p)[1..] == Split(rest);
      if t.entries[n].Tree? {
        FlattenBelow(t, n, rest);
      }
    }
  }

  lemma FullPathNested(prefix: string, n: string, p: string)
    requires n != ""
    ensures FullPath(FullPath(prefix, n), p) == FullPath(prefix, n + "/" + p)
  {
    if prefix != "" {
      assert (prefix + "/" + n) + "/" + p == prefix + "/" + (n + "/" + p);
    }
  }

  lemma EntryFilesAt(t: Object, prefix: string, n: string, q: string)
    requires WfTree(t) && n in t.entries
    ensures q in EntryFiles(t, prefix, n) <==> IsPlaced(t, prefix, {n}, q)
    ensures IsPlaced(t, prefix, {n}, q) ==> EntryFiles(t, prefix, n)[q] == Flatten(t)[BelowPrefix(prefix, q)]
  {
    var e, sub := t.entries[n], FullPath(prefix, n);
    FlattenEntry(t, n);
    if e.Tree? {
      PlacedAt(e, sub, e.entries.Keys, q);
    }
    if IsPlaced(t, prefix, {n}, q) {
      var m, rest := FlattenFirst(t, BelowPrefix(prefix, q));
      if e.Tree? {
        FlattenBelow(t, n, rest);
        FullPathNested(prefix, n, rest);
        FullPathBack(sub, rest);
        var k, r := FlattenFirst(e, rest);
        assert IsPlaced(e, sub, e.entries.Keys, q);
      }
    }
    if q in EntryFiles(t, prefix, n) {
      var r := if e.Tree? then n + "/" + BelowPrefix(sub, q) else n;
      if e.Tree? {
        FlattenBelow(t, n, BelowPrefix(sub, q));
        FullPathNested(prefix, n, BelowPrefix(sub, q));
      }
      FullPathBack(prefix, r);
    }
  }

  lemma PlacedStepAt(t: Object, prefix: string, names: set<string>, n: string, q: string)
    requires WfTree(t) && n in t.entries && n !in names
    ensures q in Placed(t, prefix, names + {n}) <==> q in Placed(t, prefix, names) || q in EntryFiles(t, prefix, n)
    ensures !(q in Placed(t, prefix, names) && q in EntryFiles(t, prefix, n))
    ensures q in Placed(t, prefix, names) ==> Placed(t, prefix, names + {n})[q] == Placed(t, prefix, names)[q]
    ensures q in EntryFiles(t, prefix, n) ==> Placed(t, prefix, names + {n})[q] == EntryFiles(t, prefix, n)[q]
  {
    IsPlacedEither(t, prefix, names, n, q);
    PlacedAt(t, prefix, names + {n}, q);
    PlacedAt(t, prefix, names, q);
    EntryFilesAt(t, prefix, n, q);
  }

  lemma IsPlacedEither(t: Object, prefix: string, names: set<string>, n: string, q: string)
    requires n !in names
    ensures IsPlaced(t, prefix, names + {n}, q) <==> IsPlaced(t, prefix, names, q) || IsPlaced(t, prefix, {n}, q)
    ensures !(IsPlaced(t, prefix, names, q) && IsPlaced(t, prefix, {n}, q))
  {
  }

  lemma MapUnion(m: map<string, Object>, a: map<string, Object>, b: map<string, Object>)
    requires forall q :: q in m <==> q in a || q in b
    requires forall q :: !(q in a && q in b)
    requires forall q | q in a :: m[q] == a[q]
    requires forall q | q in b :: m[q] == b[q]
    ensures m == a + b && a.Keys !! b.Keys
  {
  }

  /** One more entry walked: its files come to those placed before, and are none of them. */
  lemma PlacedStep(t: Object, prefix: string, names: set<string>, n: string)
    requires WfTree(t) && n in t.entries && n !in names
    ensures Placed(t, prefix, names + {n}) == Placed(t, prefix, names) + EntryFiles(t, prefix, n)
    ensures Placed(t, prefix, names).Keys !! EntryFiles(t, prefix, n).Keys
  {
    var m, a, b := Placed(t, prefix, names + {n}), Placed(t, prefix, names), EntryFiles(t, prefix, n);
    forall q
      ensures q in m <==> q in a || q in b
      ensures !(q in a && q in b)
      ensures q in a ==> m[q] == a[q]
      ensures q in b ==> m[q] == b[q]
    {
      PlacedStepAt(t, prefix, names, n, q);
    }
    MapUnion(m, a, b);
  }

  /** The files under the first `i` entries in iteration order. */
  function PlacedFirst(t: Object, prefix: string, i: nat): map<string, Object>
    requires t.Tree? && i <= |t.entries|
  {
    Placed(t, prefix, ToSet(SortedKeys(t.entries.Keys)[..i]))
  }

  lemma PlacedFirstStep(t: Object, prefix: string, i: nat)
    requires WfTree(t) && i < |t.entries|
    ensures var n := SortedKeys(t.entries.Keys)[i];
            && PlacedFirst(t, prefix, i + 1) == PlacedFirst(t, prefix, i) + EntryFiles(t, prefix, n)
            && PlacedFirst(t, prefix, i).Keys !! EntryFiles(t, prefix, n).Keys
  {
    var names := SortedKeys(t.entries.Keys);
    AscendingDistinct(names);
    ToSetSnoc(names[..i + 1]);
    assert names[..i + 1][..i] == names[..i];
    PlacedStep(t, prefix, ToSet(names[..i]), names[i]);
  }

  lemma PlusAssociative(a: map<string, Object>, b: map<string, Object>, c: map<string, Object>)
    ensures (a + b) + c == a + (b + c)
  {
  }

  /** The part of a map already gone through. */
  function Taken(m: map<string, Object>, keys: set<string>): map<string, Object> {
    map k | k in keys && k in m :: m[k]
  }

  lemma TakenNext(m: map<string, Object>, keys: set<string>, k: string)
    requires k in m
    ensures Taken(m, keys + {k}) == Taken(m, keys)[k := m[k]]
  {
  }

  lemma TakenEnds(m: map<string, Object>)
    ensures Taken(m, {}) == map[] && Taken(m, m.Keys) == m
  {
  }

  lemma PlusNothing(m: map<string, Object>)
    ensures m + map[] == m && map[] + m == m
  {
  }

  lemma UpdateIsPlus(m: map<string, Object>, k: string, v: Object)
    ensures m[k := v] == m + map[k := v]
  {
  }

  lemma AddFiles(first: map<string, Object>, files: map<string, Object>, next: map<string, Object>,
                 before: map<string, Object>, mid: map<string, Object>, after: map<string, Object>)
    requires next == first + files && mid == before + first && after == mid + files
    ensures after == before + next
  {
    PlusAssociative(before, first, files);
  }

  /** Adding the next entry's files to a map that has those of the entries before. */
  lemma AddEntry(t: Object, prefix: string, i: nat, before: map<string, Object>, mid: map<string, Object>,
      after: map<string, Object>)
    requires WfTree(t) && i < |t.entries| && mid == before + PlacedFirst(t, prefix, i)
    requires var n := SortedKeys(t.entries.Keys)[i];
             var e := t.entries[n];
             after == if e.Tree? then mid + Placed(e, FullPath(prefix, n), e.entries.Keys)
                 else mid[FullPath(prefix, n) := e]
    ensures after == before + PlacedFirst(t, prefix, i + 1)
  {
    var n := SortedKeys(t.entries.Keys)[i];
    UpdateIsPlus(mid, FullPath(prefix, n), t.entries[n]);
    AddFiles(PlacedFirst(t, prefix, i), EntryFiles(t, prefix, n), PlacedFirst(t, prefix, i + 1), before, mid,
        after) by {
      PlacedFirstStep(t, prefix, i);
    }
  }

  lemma KeysMinus(a: map<string, Object>, b: map<string, Object>, w: set<string>)
    ensures (a + b).Keys - w == (a.Keys - w) + (b.Keys - w)
  {
  }

  /** Listing the next entry's files that are not in `w`. */
  lemma ListEntry(t: Object, prefix: string, i: nat, w: set<string>, found: seq<string>, below: seq<string>)
    requires WfTree(t) && i < |t.entries|
    requires Lists(found, PlacedFirst(t, prefix, i).Keys - w)
    requires Lists(below, EntryFiles(t, prefix, SortedKeys(t.entries.Keys)[i]).Keys - w)
    ensures Lists(found + below, PlacedFirst(t, prefix, i + 1).Keys - w)
  {
    var n := SortedKeys(t.entries.Keys)[i];
    PlacedFirstStep(t, prefix, i);
    KeysMinus(PlacedFirst(t, prefix, i), EntryFiles(t, prefix, n), w);
    DistinctConcat(found, below);
  }

  lemma PlacedFirstEnds(t: Object, prefix: string)
    requires WfTree(t)
    ensures PlacedFirst(t, prefix, 0) == map[]
    ensures PlacedFirst(t, prefix, |t.entries|) == Placed(t, prefix, t.entries.Keys)
  {
    var names := SortedKeys(t.entries.Keys);
    PlacedNone(t, prefix);
    assert names[..0] == [] && ToSet([]) == {};
    SortedKeysSet(t.entries.Keys);
    assert names[..|names|] == names;
  }

  predicate Distinct(xs: seq<string>) {
    forall i, j | 0 <= i < j < |xs| :: xs[i] != xs[j]
  }

  /** Every member of a set, once. */
  predicate Lists(xs: seq<string>, s: set<string>) {
    Distinct(xs) && ToSet(xs) == s
  }

  lemma DistinctConcat(xs: seq<string>, ys: seq<string>)
    requires Distinct(xs) && Distinct(ys) && ToSet(xs) !! ToSet(ys)
    ensures Distinct(xs + ys) && ToSet(xs + ys) == ToSet(xs) + ToSet(ys)
  {
    forall i, j | 0 <= i < j < |xs + ys| ensures (xs + ys)[i] != (xs + ys)[j] {
      if i < |xs| <= j {
        assert xs[i] in ToSet(xs) && ys[j - |xs|] in ToSet(ys);
      }
    }
  }
}
