/** The commit log with its limit and path filter, and the history of one author. */
module History {
  import opened Text
  import opened Paths
  import opened Objects
  import opened RepositoryState

  /** The files a path selects: the file itself, or those in the directory of that name. */
  function Under(m: map<string, Object>, path: string): map<string, Object> {
    map p | p in m && (p == path || DirPrefix(path, p)) :: m[p]
  }

  /** Whether a commit differs from its first parent at the path. A root commit touches
      everything; a commit whose parent or trees are missing, nothing. */
  predicate Touches(odb: set<Object>, c: Object, path: string)
    requires c.Commit?
  {
    || c.parents == []
    || (&& c.parents[0].Commit? && c.parents[0] in odb && c.tree in odb && c.parents[0].tree in odb
        && Under(Flatten(c.parents[0].tree), path) != Under(Flatten(c.tree), path))
  }

  /** The commit can be looked up. */
  predicate Present(odb: set<Object>, o: Object) {
    o.Commit? && o in odb
  }

  /** It can be looked up, but the path filter leaves it out. */
  predicate Skipped(odb: set<Object>, o: Object, path: string) {
    Present(odb, o) && path != "" && !Touches(odb, o, path)
  }

  function NotSkipped(odb: set<Object>, walked: seq<Object>, path: string): seq<Object> {
    if walked == [] then []
    else
      var last := walked[|walked| - 1];
      NotSkipped(odb, walked[..|walked| - 1], path) + if Skipped(odb, last, path) then [] else [last]
  }

  function OnlyPresent(odb: set<Object>, cs: seq<Object>): seq<Object> {
    if cs == [] then []
    else
      var last := cs[|cs| - 1];
      OnlyPresent(odb, cs[..|cs| - 1]) + if Present(odb, last) then [last] else []
  }

  function FirstOf<T>(cs: seq<T>, limit: int): seq<T> {
    if limit > 0 && limit < |cs| then cs[..limit] else cs
  }

  lemma NotSkippedNext(odb: set<Object>, walked: seq<Object>, path: string, i: nat)
    requires i < |walked|
    ensures NotSkipped(odb, walked[..i + 1], path) ==
            NotSkipped(odb, walked[..i], path) + if Skipped(odb, walked[i], path) then [] else [walked[i]]
  {
    assert walked[..i + 1][..i] == walked[..i];
  }

  lemma OnlyPresentSnoc(odb: set<Object>, cs: seq<Object>, o: Object)
    ensures OnlyPresent(odb, cs + [o]) == OnlyPresent(odb, cs) + if Present(odb, o) then [o] else []
  {
    assert (cs + [o])[..|cs|] == cs;
  }

  lemma {:induction false} NotSkippedGrows(odb: set<Object>, walked: seq<Object>, path: string, i: nat)
    requires i <= |walked|
    ensures NotSkipped(odb, walked[..i], path) <= NotSkipped(odb, walked, path)
    decreases |walked| - i
  {
    if i < |walked| {
      NotSkippedNext(odb, walked, path, i);
      NotSkippedGrows(odb, walked, path, i + 1);
    } else {
      assert walked[..i] == walked;
    }
  }

  /** The loop after the first `i` commits. */
  ghost predicate Logged(odb: set<Object>, walked: seq<Object>, path: string, i: nat, count: nat,
      entries: seq<Object>) {
    && i <= |walked| && count == |NotSkipped(odb, walked[..i], path)|
    && entries == OnlyPresent(odb, NotSkipped(odb, walked[..i], path))
  }

  lemma LogStep(odb: set<Object>, walked: seq<Object>, path: string, i: nat, count: nat, entries: seq<Object>)
    requires Logged(odb, walked, path, i, count, entries) && i < |walked|
    ensures Logged(odb, walked, path, i + 1, if Skipped(odb, walked[i], path) then count else count + 1,
                   if Present(odb, walked[i]) && !Skipped(odb, walked[i], path) then entries + [walked[i]] else entries)
  {
    NotSkippedNext(odb, walked, path, i);
    var kept := NotSkipped(odb, walked[..i], path);
    OnlyPresentSnoc(odb, kept, walked[i]);
    assert kept + [] == kept && entries + [] == entries;
  }

  lemma LogEnds(odb: set<Object>, walked: seq<Object>, path: string, count: nat, entries: seq<Object>, limit: int)
    requires Logged(odb, walked, path, |walked|, count, entries) && (limit > 0 ==> count <= limit)
    ensures entries == OnlyPresent(odb, FirstOf(NotSkipped(odb, walked, path), limit))
  {
    assert walked[..|walked|] == walked;
  }

  /** The log of the walked commits: of those the filter lets through or that cannot be looked
      up, the first so many, without the ones that cannot be looked up. */
  method Log(odb: set<Object>, walked: seq<Object>, maxCount: int, path: string) returns (entries: seq<Object>)
    ensures entries == OnlyPresent(odb, FirstOf(NotSkipped(odb, walked, path), maxCount))
  {
    entries := [];
    var count: nat := 0;
    for i := 0 to |walked|
      invariant Logged(odb, walked, path, i, count, entries) && (maxCount > 0 ==> count <= maxCount)
    {
      LogStep(odb, walked, path, i, count, entries);
      count := count + 1;
      if maxCount > 0 && count > maxCount {
        LimitReached(odb, walked, path, i, maxCount);
        return;
      }
      var commit := walked[i];
      if !Present(odb, commit) {
        continue;
      }
      if path != "" && !Touches(odb, commit, path) {
        // a filtered commit is not counted
        count := count - 1;
        continue;
      }
      entries := entries + [commit];
    }
    LogEnds(odb, walked, path, count, entries, maxCount);
  }

  lemma LimitReached(odb: set<Object>, walked: seq<Object>, path: string, i: nat, limit: int)
    requires i < |walked| && limit > 0 && |NotSkipped(odb, walked[..i], path)| == limit
    ensures FirstOf(NotSkipped(odb, walked, path), limit) == NotSkipped(odb, walked[..i], path)
  {
    NotSkippedGrows(odb, walked, path, i);
  }

  /** A file is in one of the trees only, or has different contents. */
  predicate FileDiffers(before: map<string, Object>, after: map<string, Object>, q: string) {
    if q in before then q !in after || after[q] != before[q] else q in after
  }

  /** Between two trees, some file at the path or below it is not the same. */
  predicate ChangesUnder(t: Object, u: Object, path: string) {
    var before, after := Flatten(t), Flatten(u);
    exists q | q in before.Keys + after.Keys :: (q == path || path + "/" <= q) && FileDiffers(before, after, q)
  }

  lemma UnderDiffers(before: map<string, Object>, after: map<string, Object>, path: string)
    ensures Under(before, path) != Under(after, path) <==>
            exists q | q in before.Keys + after.Keys :: (q == path || path + "/" <= q) && FileDiffers(before, after, q)
  {
    var a, b := Under(before, path), Under(after, path);
    forall q | q in before.Keys + after.Keys && (q == path || path + "/" <= q)
      ensures FileDiffers(before, after, q) ==> a != b
    {
      assert q in a <==> q in before;
      assert q in b <==> q in after;
    }
    if forall q | q in before.Keys + after.Keys && (q == path || path + "/" <= q) :: !FileDiffers(before, after, q) {
      assert a == b;
    }
  }

  /** The walked commits that change something at a path, as far as their parents and trees are
      there; without a path, or without a parent, all of them. */
  function Touching(odb: set<Object>, walked: seq<Object>, path: string): seq<Object> {
    if walked == [] then []
    else
      var last := walked[|walked| - 1];
      var before := Touching(odb, walked[..|walked| - 1], path);
      before + if last.Commit? && (path == "" || Changes(odb, last, path)) then [last] else []
  }

  predicate Changes(odb: set<Object>, c: Object, path: string)
    requires c.Commit?
  {
    || c.parents == []
    || (&& c.parents[0].Commit? && c.parents[0] in odb && c.tree in odb && c.parents[0].tree in odb
        && ChangesUnder(c.parents[0].tree, c.tree, path))
  }

  lemma TouchesIsChanges(odb: set<Object>, c: Object, path: string)
    requires c.Commit?
    ensures Touches(odb, c, path) <==> Changes(odb, c, path)
  {
    if c.parents != [] && c.parents[0].Commit? {
      UnderDiffers(Flatten(c.parents[0].tree), Flatten(c.tree), path);
    }
  }

  lemma {:induction false} PresentMeansTouching(odb: set<Object>, walked: seq<Object>, path: string)
    requires forall c <- walked :: Present(odb, c)
    ensures NotSkipped(odb, walked, path) == Touching(odb, walked, path)
    ensures forall c <- NotSkipped(odb, walked, path) :: Present(odb, c)
  {
    if walked != [] {
      assert Present(odb, walked[|walked| - 1]);
      TouchesIsChanges(odb, walked[|walked| - 1], path);
      PresentMeansTouching(odb, walked[..|walked| - 1], path);
    }
  }

  lemma {:induction false} AllPresent(odb: set<Object>, cs: seq<Object>)
    requires forall c <- cs :: Present(odb, c)
    ensures OnlyPresent(odb, cs) == cs
  {
    if cs != [] {
      AllPresent(odb, cs[..|cs| - 1]);
      assert cs == cs[..|cs| - 1] + [cs[|cs| - 1]];
    }
  }

  /** When every walked commit can be looked up, the log is the first so many of the walked
      commits that touch the path, or all of them without a positive limit. */
  lemma LogIsFirstTouching(odb: set<Object>, walked: seq<Object>, limit: int, path: string)
    requires forall c <- walked :: Present(odb, c)
    ensures OnlyPresent(odb, FirstOf(NotSkipped(odb, walked, path), limit))
            == FirstOf(Touching(odb, walked, path), limit)
  {
    PresentMeansTouching(odb, walked, path);
    AllPresent(odb, FirstOf(NotSkipped(odb, walked, path), limit));
  }

  lemma {:induction false} OnlyPresentAppend(odb: set<Object>, xs: seq<Object>, ys: seq<Object>)
    ensures OnlyPresent(odb, xs + ys) == OnlyPresent(odb, xs) + OnlyPresent(odb, ys)
    decreases |ys|
  {
    if ys == [] {
      assert xs + ys == xs;
    } else {
      OnlyPresentAppend(odb, xs, ys[..|ys| - 1]);
      assert (xs + ys)[..|xs + ys| - 1] == xs + ys[..|ys| - 1];
    }
  }

  lemma {:induction false} OnlyPresentLength(odb: set<Object>, xs: seq<Object>)
    ensures |OnlyPresent(odb, xs)| <= |xs|
    ensures |OnlyPresent(odb, xs)| == |xs| <==> forall x <- xs :: Present(odb, x)
    ensures OnlyPresent(odb, xs) == [] <==> forall x <- xs :: !Present(odb, x)
  {
    if xs != [] {
      OnlyPresentLength(odb, xs[..|xs| - 1]);
      assert xs == xs[..|xs| - 1] + [xs[|xs| - 1]];
    }
  }

  /** The commits up to the limit, one that cannot be looked up among them, while one behind the
      limit can. */
  predicate PlaceTaken(odb: set<Object>, xs: seq<Object>, limit: int) {
    && 0 < limit < |xs|
    && (exists x <- xs[..limit] :: !Present(odb, x))
    && (exists x <- xs[limit..] :: Present(odb, x))
  }

  /** A commit that cannot be looked up counts towards the limit: the log is the first so many of
      the unfiltered commits that can be looked up just when no such place is taken. */
  lemma LogExactIff(odb: set<Object>, walked: seq<Object>, limit: int, path: string)
    ensures var xs := NotSkipped(odb, walked, path);
            OnlyPresent(odb, FirstOf(xs, limit)) == FirstOf(OnlyPresent(odb, xs), limit) <==>
            !PlaceTaken(odb, xs, limit)
  {
    FirstPresentIff(odb, NotSkipped(odb, walked, path), limit);
  }

  lemma FirstPresentIff(odb: set<Object>, xs: seq<Object>, limit: int)
    ensures OnlyPresent(odb, FirstOf(xs, limit)) == FirstOf(OnlyPresent(odb, xs), limit) <==>
            !PlaceTaken(odb, xs, limit)
  {
    OnlyPresentLength(odb, xs);
    if 0 < limit < |xs| {
      var first, rest := xs[..limit], xs[limit..];
      assert xs == first + rest;
      OnlyPresentAppend(odb, first, rest);
      OnlyPresentLength(odb, first);
      OnlyPresentLength(odb, rest);
      FirstOfAppend(OnlyPresent(odb, first), OnlyPresent(odb, rest), limit);
    }
  }

  lemma FirstOfAppend<T>(xs: seq<T>, ys: seq<T>, limit: int)
    requires 0 < limit && |xs| <= limit
    ensures FirstOf(xs + ys, limit) == xs <==> |xs| == limit || ys == []
  {
  }

  /** Everything HEAD descends from can be looked up in a valid repository. */
  lemma {:induction false} AncestorsPresent(s: State, c: Object, head: Object)
    requires Valid(s) && head in s.odb && head.Commit? && IsAncestor(c, head)
    ensures Present(s.odb, c)
    decreases head
  {
    if c != head {
      var i :| 0 <= i < |head.parents| && IsAncestor(c, head.parents[i]);
      assert head.parents[i] in Children(head);
      AncestorsPresent(s, c, head.parents[i]);
    }
  }

  /** So for a walk over commits HEAD descends from, in any order, the log is exactly the first so
      many of them that touch the path. */
  lemma LogOfHead(s: State, walked: seq<Object>, limit: int, path: string)
    requires Valid(s) && HeadId(s).Some? && forall c <- walked :: IsAncestor(c, HeadId(s).value)
    ensures OnlyPresent(s.odb, FirstOf(NotSkipped(s.odb, walked, path), limit)) ==
            FirstOf(Touching(s.odb, walked, path), limit)
  {
    HeadIsCommit(s);
    forall c <- walked ensures Present(s.odb, c) {
      AncestorsPresent(s, c, HeadId(s).value);
    }
    LogIsFirstTouching(s.odb, walked, limit, path);
  }

  // ---- What the log means ----

  /** The entries at these places. */
  function Picked<T>(xs: seq<T>, places: seq<nat>): seq<T>
    requires forall i | 0 <= i < |places| :: places[i] < |xs|
  {
    seq(|places|, i requires 0 <= i < |places| => xs[places[i]])
  }

  /** Places of a list, each once and in order. */
  predicate InOrder(places: seq<nat>, n: nat) {
    && (forall i | 0 <= i < |places| :: places[i] < n)
    && (forall i, j | 0 <= i < j < |places| :: places[i] < places[j])
  }

  /** A commit belongs in the log of a path: there is no path or no parent, or some file at the path
      or below it is not the same as in the first parent. */
  predicate Belongs(c: Object, path: string) {
    && c.Commit?
    && (|| path == "" || c.parents == []
        || (c.parents[0].Commit? && ChangesUnder(c.parents[0].tree, c.tree, path)))
  }

  lemma PlacesNext<T>(xs: seq<T>, before: seq<nat>, take: bool) returns (places: seq<nat>)
    requires xs != [] && InOrder(before, |xs| - 1)
    ensures InOrder(places, |xs|)
    ensures forall i: nat :: i in places <==> i in before || (take && i == |xs| - 1)
    ensures Picked(xs, places) == Picked(xs[..|xs| - 1], before) + if take then [xs[|xs| - 1]] else []
  {
    places := before + if take then [|xs| - 1] else [];
    assert Picked(xs, before) == Picked(xs[..|xs| - 1], before);
  }

  lemma ChangesIff(s: State, c: Object, path: string)
    requires Valid(s) && Present(s.odb, c)
    ensures path == "" || Changes(s.odb, c, path) <==> Belongs(c, path)
  {
    if c.parents != [] {
      var parent := c.parents[0];
      assert parent in Children(c) && c.tree in Children(c);
      assert parent in s.odb && parent.tree in Children(parent);
    }
  }

  /** The places of the walked commits that belong in the log. */
  lemma {:induction false} TouchingPlaces(s: State, walked: seq<Object>, path: string) returns (places: seq<nat>)
    requires Valid(s) && forall c <- walked :: Present(s.odb, c)
    ensures InOrder(places, |walked|) && Touching(s.odb, walked, path) == Picked(walked, places)
    ensures forall i: nat | i < |walked| :: i in places <==> Belongs(walked[i], path)
  {
    if walked == [] {
      places := [];
    } else {
      var n := |walked| - 1;
      assert walked == walked[..n] + [walked[n]];
      var before := TouchingPlaces(s, walked[..n], path);
      assert walked[n] in walked;
      ChangesIff(s, walked[n], path);
      places := PlacesNext(walked, before, Belongs(walked[n], path));
      forall i: nat | i < |walked| ensures i in places <==> Belongs(walked[i], path) {
        if i < n { assert walked[..n][i] == walked[i]; }
      }
    }
  }

  /** Below HEAD of a valid repository, the log of a path is exactly the walked commits that belong in
      it, in order, and with a limit the first so many of them. */
  lemma LogMeaning(s: State, walked: seq<Object>, path: string) returns (places: seq<nat>)
    requires Valid(s) && HeadId(s).Some? && forall c <- walked :: IsAncestor(c, HeadId(s).value)
    ensures InOrder(places, |walked|) && forall i: nat | i < |walked| :: i in places <==> Belongs(walked[i], path)
    ensures forall limit: int ::
              OnlyPresent(s.odb, FirstOf(NotSkipped(s.odb, walked, path), limit)) ==
              if 0 < limit < |places| then Picked(walked, places)[..limit] else Picked(walked, places)
  {
    HeadIsCommit(s);
    forall c <- walked ensures Present(s.odb, c) {
      AncestorsPresent(s, c, HeadId(s).value);
    }
    places := TouchingPlaces(s, walked, path);
    forall limit: int
      ensures OnlyPresent(s.odb, FirstOf(NotSkipped(s.odb, walked, path), limit)) ==
              if 0 < limit < |places| then Picked(walked, places)[..limit] else Picked(walked, places)
    {
      LogIsFirstTouching(s.odb, walked, limit, path);
    }
  }

  // ---- One author ----

  /** A log entry and its author's address. */
  datatype LogEntry = LogEntry(id: Object, email: string)

  function By(all: seq<LogEntry>, email: string): seq<LogEntry> {
    if all == [] then []
    else
      var last := all[|all| - 1];
      By(all[..|all| - 1], email) + if last.email == email then [last] else []
  }

  lemma ByNext(all: seq<LogEntry>, email: string, i: nat)
    requires i < |all|
    ensures By(all[..i + 1], email) == By(all[..i], email) + if all[i].email == email then [all[i]] else []
  {
    assert all[..i + 1][..i] == all[..i];
  }

  lemma {:induction false} ByGrows(all: seq<LogEntry>, email: string, i: nat)
    requires i <= |all|
    ensures By(all[..i], email) <= By(all, email)
    decreases |all| - i
  {
    if i < |all| {
      ByNext(all, email, i);
      ByGrows(all, email, i + 1);
    } else {
      assert all[..i] == all;
    }
  }

  /** The limit is looked at after an entry was added, so a negative one lets one through. */
  function Effective(maxCount: Option<int>): int {
    if maxCount.None? then 0 else if maxCount.value < 0 then 1 else maxCount.value
  }

  method UserHistory(all: seq<LogEntry>, email: string, maxCount: Option<int>) returns (result: seq<LogEntry>)
    ensures result == FirstOf(By(all, email), Effective(maxCount))
  {
    result := [];
    for i := 0 to |all|
      invariant result == By(all[..i], email)
      invariant maxCount.Some? && maxCount.value != 0 ==> |result| < Effective(maxCount)
    {
      ByNext(all, email, i);
      if all[i].email == email {
        result := result + [all[i]];
        if maxCount.Some? && maxCount.value != 0 && |result| >= maxCount.value {
          ByGrows(all, email, i + 1);
          return;
        }
      }
    }
    assert all[..|all|] == all;
  }

  /** An author's history without a limit, for which 0 stands, too: exactly the entries with that address, in order. */
  lemma {:induction false} HistoryPlaces(all: seq<LogEntry>, email: string) returns (places: seq<nat>)
    ensures InOrder(places, |all|) && forall i: nat | i < |all| :: i in places <==> all[i].email == email
    ensures FirstOf(By(all, email), Effective(None)) == Picked(all, places)
    ensures FirstOf(By(all, email), Effective(Some(0))) == Picked(all, places)
  {
    if all == [] {
      places := [];
    } else {
      var n := |all| - 1;
      var before := HistoryPlaces(all[..n], email);
      places := PlacesNext(all, before, all[n].email == email);
      forall i: nat | i < |all| ensures i in places <==> all[i].email == email {
        if i < n { assert all[..n][i] == all[i]; }
      }
    }
  }

  /** With a limit, an author's history is a prefix of the one without: of that length, or all
      of it when it is shorter. */
  lemma HistoryIsPrefix(all: seq<LogEntry>, email: string, limit: int)
    requires limit > 0
    ensures var some, every := FirstOf(By(all, email), Effective(Some(limit))),
            FirstOf(By(all, email), Effective(None));
            some <= every && |some| == if limit < |every| then limit else |every|
  {
  }

  /** A negative limit lets the first entry through. */
  lemma NegativeLimit(all: seq<LogEntry>, email: string, limit: int)
    requires limit < 0 && By(all, email) != []
    ensures FirstOf(By(all, email), Effective(Some(limit))) == [By(all, email)[0]]
  {
  }
}
