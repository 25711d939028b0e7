/** The index a merge works on, and what settling its conflicts leaves in it. */
module MergeResolution {
  import opened Text
  import opened Paths
  import opened Objects
  import opened TreeBuilding

  /** The stages of one conflicted path. */
  datatype Sides = Sides(ancestor: Option<Object>, ours: Option<Object>, theirs: Option<Object>)

  /** Resolved (stage 0) entries and conflicted paths. */
  datatype Index = Index(entries: map<string, Object>, conflicts: map<string, Sides>)

  datatype Conflict = Conflict(path: string, sides: Sides)

  /** What the resolver callback returns for one conflict. */
  datatype Answer = Content(data: Bytes) | Declined

  predicate BlobOrNone(o: Option<Object>) { o.Some? ==> o.value.Blob? }

  predicate ValidIndex(ix: Index) {
    && AllBlobs(ix.entries) && PrefixFree(ix.entries) && ix.entries.Keys !! ix.conflicts.Keys
    && (forall p <- ix.entries :: StorablePath(p))
    && (forall p <- ix.conflicts :: StorablePath(p) && var c := ix.conflicts[p];
          BlobOrNone(c.ancestor) && BlobOrNone(c.ours) && BlobOrNone(c.theirs))
  }

  /** The blobs the merge has put into the store. */
  function IndexBlobs(ix: Index): set<Object> {
    ix.entries.Values
    + (set p | p in ix.conflicts && ix.conflicts[p].ancestor.Some? :: ix.conflicts[p].ancestor.value)
    + (set p | p in ix.conflicts && ix.conflicts[p].ours.Some? :: ix.conflicts[p].ours.value)
    + (set p | p in ix.conflicts && ix.conflicts[p].theirs.Some? :: ix.conflicts[p].theirs.value)
  }

  function ConflictRemove(ix: Index, p: string): Index {
    ix.(conflicts := ix.conflicts - {p})
  }

  predicate Collide(p: string, q: string) { DirPrefix(p, q) || DirPrefix(q, p) }

  /** A file replaces a directory, and files in a directory replace the file of its name. */
  function IndexAdd(ix: Index, p: string, b: Object): Index {
    ix.(entries := (map q | q in ix.entries && !Collide(p, q) :: ix.entries[q])[p := b])
  }

  /** Puts the content at stage 0, with no conflict entry left for the path. */
  function ApplyResolved(ix: Index, p: string, b: Object): Index {
    IndexAdd(ConflictRemove(ix, p), p, b)
  }

  /** One conflict after the other: content is applied, a deletion just ends the conflict. */
  function Settle(ix: Index, ks: seq<string>, choice: map<string, Option<Object>>): Index {
    if ks == [] then ix
    else
      var before, k := Settle(ix, ks[..|ks| - 1], choice), ks[|ks| - 1];
      if k in choice && choice[k].Some? then ApplyResolved(before, k, choice[k].value) else ConflictRemove(before, k)
  }

  lemma SettleNext(ix: Index, ks: seq<string>, i: nat, choice: map<string, Option<Object>>)
    requires i < |ks|
    ensures var before := Settle(ix, ks[..i], choice);
            Settle(ix, ks[..i + 1], choice) ==
            if ks[i] in choice && choice[ks[i]].Some? then ApplyResolved(before, ks[i], choice[ks[i]].value)
            else ConflictRemove(before, ks[i])
    ensures ks[..i + 1] == ks[..i] + [ks[i]]
  {
    assert ks[..i + 1][..i] == ks[..i];
  }

  /** The contents chosen for `keys`. */
  function Chosen(keys: set<string>, choice: map<string, Option<Object>>): map<string, Object> {
    map k | k in keys && k in choice && choice[k].Some? :: choice[k].value
  }

  predicate Clear(q: string, ks: set<string>) {
    forall p <- ks :: !Collide(p, q)
  }

  /** Which paths remain when `added` is put over a base: a path and a directory of the same
      name exclude each other, added paths win over old ones and added deeper paths over
      added shallower ones. */
  predicate Stays(q: string, added: set<string>) {
    if q in added then !Shadowed(q, added) else Clear(q, added)
  }

  function Kept(base: set<string>, added: set<string>): set<string> {
    set q | q in base + added && Stays(q, added)
  }

  function Overlay(base: map<string, Object>, added: map<string, Object>): map<string, Object> {
    map q | q in Kept(base.Keys, added.Keys) :: if q in added then added[q] else base[q]
  }

  lemma StaysStep(q: string, ks: set<string>, k: string)
    requires forall p <- ks :: Below(p, k)
    ensures Stays(q, ks + {k}) <==> q == k || (Stays(q, ks) && !Collide(k, q))
  {
    forall p <- ks ensures !DirPrefix(k, p) && p != k {
      BelowTotal(p, k);
      if DirPrefix(k, p) { DirPrefixBelow(k, p); }
    }
    assert Shadowed(q, ks + {k}) <==> Shadowed(q, ks) || DirPrefix(q, k);
    assert Clear(q, ks + {k}) <==> Clear(q, ks) && !Collide(k, q);
    assert !DirPrefix(k, k);
  }

  lemma {:induction false} SettleMeaning(ix: Index, ks: seq<string>, choice: map<string, Option<Object>>)
    requires Ascending(ks)
    ensures Settle(ix, ks, choice).conflicts == ix.conflicts - ToSet(ks)
    ensures Settle(ix, ks, choice).entries == Overlay(ix.entries, Chosen(ToSet(ks), choice))
  {
    if ks == [] {
      assert Chosen({}, choice) == map[];
      assert forall q :: Clear(q, {});
    } else {
      var init, k := ks[..|ks| - 1], ks[|ks| - 1];
      SettleMeaning(ix, init, choice);
      ToSetSnoc(ks);
      var before, prev := Settle(ix, init, choice), Chosen(ToSet(init), choice);
      assert before.conflicts - {k} == ix.conflicts - ToSet(ks);
      ChosenSnoc(ToSet(init), k, choice);
      if k in choice && choice[k].Some? {
        LastAdded(ix.entries, prev, k, choice[k].value);
      }
    }
  }

  lemma ChosenSnoc(keys: set<string>, k: string, choice: map<string, Option<Object>>)
    ensures Chosen(keys + {k}, choice) ==
            if k in choice && choice[k].Some? then Chosen(keys, choice)[k := choice[k].value] else Chosen(keys, choice)
  {
  }

  /** Adding a path that sorts after all added before. */
  lemma LastAdded(base: map<string, Object>, prev: map<string, Object>, k: string, b: Object)
    requires forall p <- prev :: Below(p, k)
    ensures (map q | q in Overlay(base, prev) && !Collide(k, q) :: Overlay(base, prev)[q])[k := b]
         == Overlay(base, prev[k := b])
  {
    var more, before := prev[k := b], Overlay(base, prev);
    assert more.Keys == prev.Keys + {k};
    KeptStep(base.Keys, prev.Keys, k);
    OverlayKeys(base, prev);
    OverlayKeys(base, more);
    var lhs := (map q | q in before && !Collide(k, q) :: before[q])[k := b];
    assert lhs.Keys == Kept(base.Keys, more.Keys);
    forall q <- lhs ensures lhs[q] == Overlay(base, more)[q] {
      assert q != k ==> before[q] == if q in prev then prev[q] else base[q];
    }
  }

  lemma OverlayKeys(base: map<string, Object>, added: map<string, Object>)
    ensures Overlay(base, added).Keys == Kept(base.Keys, added.Keys)
  {
  }

  lemma KeptStep(base: set<string>, added: set<string>, k: string)
    requires forall p <- added :: Below(p, k)
    ensures Kept(base, added + {k}) == (set q | q in Kept(base, added) && !Collide(k, q)) + {k}
  {
    forall q ensures Stays(q, added + {k}) <==> q == k || (Stays(q, added) && !Collide(k, q)) {
      StaysStep(q, added, k);
    }
  }

  /** No settled path is a directory of, or in a directory named like, another path. */
  predicate CollisionFree(base: map<string, Object>, added: map<string, Object>) {
    PrefixFree(added) && forall q <- base :: q in added || Clear(q, added.Keys)
  }

  /** Settling changes exactly the settled paths just when there are no such collisions. */
  lemma OverlayExact(base: map<string, Object>, added: map<string, Object>)
    ensures CollisionFree(base, added) <==> Overlay(base, added) == base + added
  {
    if Overlay(base, added) == base + added {
      forall q | q in base || q in added ensures Stays(q, added.Keys) {
        assert q in Overlay(base, added);
      }
    }
  }

  /** Settling keeps files and directories apart. */
  lemma OverlayPrefixFree(base: map<string, Object>, added: map<string, Object>)
    requires PrefixFree(base)
    ensures PrefixFree(Overlay(base, added))
  {
    var o := Overlay(base, added);
    forall p <- o, q <- o ensures !DirPrefix(p, q) {
      if p in added || q in added {
        assert Stays(p, added.Keys) && Stays(q, added.Keys);
      } else {
        assert !Shadowed(p, base.Keys);
      }
    }
  }

  lemma SettleValid(ix: Index, ks: seq<string>, choice: map<string, Option<Object>>)
    requires ValidIndex(ix) && Ascending(ks) && ToSet(ks) <= ix.conflicts.Keys
    requires forall k <- choice :: BlobOrNone(choice[k])
    ensures ValidIndex(Settle(ix, ks, choice))
  {
    var out, added := Settle(ix, ks, choice), Chosen(ToSet(ks), choice);
    SettleMeaning(ix, ks, choice);
    OverlayPrefixFree(ix.entries, added);
    forall p <- out.entries ensures out.entries[p].Blob? && StorablePath(p) && p !in out.conflicts {
      assert p in ix.entries || p in added;
    }
  }

  // ---- The strategies ----

  function Conflicts(ix: Index): seq<Conflict> {
    var ks := SortedKeys(ix.conflicts.Keys);
    seq(|ks|, i requires 0 <= i < |ks| => Conflict(ks[i], ix.conflicts[ks[i]]))
  }

  function Side(c: Sides, useOurs: bool): Option<Object> {
    if useOurs then c.ours else c.theirs
  }

  function SideChoice(ix: Index, useOurs: bool): map<string, Option<Object>> {
    map p | p in ix.conflicts :: Side(ix.conflicts[p], useOurs)
  }

  /** Every conflict settled with one side. */
  function TakeSide(ix: Index, useOurs: bool): Index {
    Settle(ix, SortedKeys(ix.conflicts.Keys), SideChoice(ix, useOurs))
  }

  /** The blobs of one side, where it has any. */
  function SideBlobs(ix: Index, useOurs: bool): map<string, Object> {
    if useOurs then map p | p in ix.conflicts && ix.conflicts[p].ours.Some? :: ix.conflicts[p].ours.value
    else map p | p in ix.conflicts && ix.conflicts[p].theirs.Some? :: ix.conflicts[p].theirs.value
  }

  lemma ChosenSides(ix: Index, useOurs: bool)
    ensures Chosen(ix.conflicts.Keys, SideChoice(ix, useOurs)) == SideBlobs(ix, useOurs)
  {
  }

  /** After taking one side no conflict is left; a conflicted path holds that side's blob, or
      nothing where that side deleted it; no other path changed, unless a path and a
      directory of the same name had to exclude each other. */
  lemma TakeSideMeaning(ix: Index, useOurs: bool)
    requires ValidIndex(ix)
    ensures var out, added := TakeSide(ix, useOurs), SideBlobs(ix, useOurs);
            && ValidIndex(out) && out.conflicts == map[]
            && out.entries == Overlay(ix.entries, added)
            && (CollisionFree(ix.entries, added) <==> out.entries == ix.entries + added)
  {
    var ks, choice := SortedKeys(ix.conflicts.Keys), SideChoice(ix, useOurs);
    SortedKeysSet(ix.conflicts.Keys);
    SettleMeaning(ix, ks, choice);
    SettleValid(ix, ks, choice);
    ChosenSides(ix, useOurs);
    OverlayExact(ix.entries, SideBlobs(ix, useOurs));
  }

  /** What the answers to the conflicts resolve. */
  function Resolutions(cs: seq<Conflict>, answers: seq<Answer>): (res: map<string, Object>)
    requires |cs| == |answers|
    ensures AllBlobs(res)
  {
    if cs == [] then map[]
    else
      var n := |cs| - 1;
      var before := Resolutions(cs[..n], answers[..n]);
      if answers[n].Content? && cs[n].path !in before then before[cs[n].path := Blob(answers[n].data)] else before
  }

  /** The conflicts the answers leave open, in order. */
  function Unresolved(cs: seq<Conflict>, answers: seq<Answer>): seq<Conflict>
    requires |cs| == |answers|
  {
    if cs == [] then []
    else
      var n := |cs| - 1;
      Unresolved(cs[..n], answers[..n]) + if answers[n].Declined? then [cs[n]] else []
  }

  /** The resolver loop: one answer per conflict, nothing is held locked meanwhile. */
  method CollectAnswers(cs: seq<Conflict>, answers: seq<Answer>)
    returns (resolutions: map<string, Object>, unresolved: seq<Conflict>)
    requires |cs| == |answers|
    ensures resolutions == Resolutions(cs, answers)
    ensures unresolved == Unresolved(cs, answers)
  {
    resolutions, unresolved := map[], [];
    for i := 0 to |cs|
      invariant resolutions == Resolutions(cs[..i], answers[..i])
      invariant unresolved == Unresolved(cs[..i], answers[..i])
    {
      assert cs[..i + 1][..i] == cs[..i] && answers[..i + 1][..i] == answers[..i];
      match answers[i] {
        case Content(data) =>
          if cs[i].path !in resolutions {
            resolutions := resolutions[cs[i].path := Blob(data)];
          }
        case Declined =>
          unresolved := unresolved + [cs[i]];
      }
    }
    assert cs[..|cs|] == cs && answers[..|cs|] == answers;
  }

  predicate DistinctPaths(cs: seq<Conflict>) {
    forall i, j | 0 <= i < j < |cs| :: cs[i].path != cs[j].path
  }

  /** Over distinct conflicts each one is either resolved, with exactly the content answered,
      or left open, never both. */
  lemma {:induction false} AnswersPartition(cs: seq<Conflict>, answers: seq<Answer>)
    requires |cs| == |answers| && DistinctPaths(cs)
    ensures Resolutions(cs, answers).Keys == AnsweredPaths(cs, answers)
    ensures |Resolutions(cs, answers)| + |Unresolved(cs, answers)| == |cs|
  {
    if cs != [] {
      var n := |cs| - 1;
      AnswersPartition(cs[..n], answers[..n]);
      AnsweredSnoc(cs, answers);
      assert cs[n].path !in AnsweredPaths(cs[..n], answers[..n]);
    }
  }

  function AnsweredPaths(cs: seq<Conflict>, answers: seq<Answer>): set<string>
    requires |cs| == |answers|
  {
    set i | 0 <= i < |cs| && answers[i].Content? :: cs[i].path
  }

  lemma AnsweredSnoc(cs: seq<Conflict>, answers: seq<Answer>)
    requires |cs| == |answers| > 0
    ensures var n := |cs| - 1;
            AnsweredPaths(cs, answers) ==
            AnsweredPaths(cs[..n], answers[..n]) + if answers[n].Content? then {cs[n].path} else {}
  {
  }

  lemma DeclinedNotAnswered(cs: seq<Conflict>, answers: seq<Answer>, i: nat)
    requires |cs| == |answers| && DistinctPaths(cs) && i < |cs| && answers[i].Declined?
    ensures cs[i].path !in AnsweredPaths(cs, answers)
  {
  }

  /** The content stored for an answered conflict is the content answered. */
  lemma {:induction false} ResolutionContent(cs: seq<Conflict>, answers: seq<Answer>, i: nat)
    requires |cs| == |answers| && DistinctPaths(cs) && i < |cs| && answers[i].Content?
    ensures cs[i].path in Resolutions(cs, answers)
    ensures Resolutions(cs, answers)[cs[i].path] == Blob(answers[i].data)
  {
    var n := |cs| - 1;
    var cs', answers' := cs[..n], answers[..n];
    var before := Resolutions(cs', answers');
    assert Resolutions(cs, answers) == if answers[n].Content? && cs[n].path !in before
                                       then before[cs[n].path := Blob(answers[n].data)] else before;
    if i < n {
      assert cs'[i] == cs[i] && answers'[i] == answers[i];
      ResolutionContent(cs', answers', i);
    } else {
      AnswersPartition(cs', answers');
    }
  }

  lemma {:induction false} UnresolvedAre(cs: seq<Conflict>, answers: seq<Answer>, c: Conflict)
    requires |cs| == |answers|
    ensures c in Unresolved(cs, answers) <==> exists i | 0 <= i < |cs| :: cs[i] == c && answers[i].Declined?
  {
    if cs != [] {
      var n := |cs| - 1;
      UnresolvedAre(cs[..n], answers[..n], c);
      if i :| 0 <= i < |cs| && cs[i] == c && answers[i].Declined? {
        assert i < n ==> cs[..n][i] == c && answers[..n][i].Declined?;
      }
      if i :| 0 <= i < n && cs[..n][i] == c && answers[..n][i].Declined? {
        assert cs[i] == c && answers[i].Declined?;
      }
    }
  }

  function AllSome(m: map<string, Object>): map<string, Option<Object>> {
    map p | p in m :: Some(m[p])
  }

  lemma ChosenAll(m: map<string, Object>)
    ensures Chosen(m.Keys, AllSome(m)) == m
  {
  }

  /** The index after the answers have been applied, in path order. */
  function ApplyAnswers(ix: Index, res: map<string, Object>): Index {
    Settle(ix, SortedKeys(res.Keys), AllSome(res))
  }

  lemma ApplyNext(ix: Index, res: map<string, Object>, ks: seq<string>, i: nat)
    requires i < |ks| && ks[i] in res
    ensures Settle(ix, ks[..i + 1], AllSome(res)) == ApplyResolved(Settle(ix, ks[..i], AllSome(res)), ks[i], res[ks[i]])
    ensures ks[..i + 1] == ks[..i] + [ks[i]]
  {
    SettleNext(ix, ks, i, AllSome(res));
  }

  lemma ConflictsDistinct(ix: Index)
    ensures DistinctPaths(Conflicts(ix))
    ensures forall p :: p in ix.conflicts <==> exists i | 0 <= i < |Conflicts(ix)| :: Conflicts(ix)[i].path == p
  {
    var ks := SortedKeys(ix.conflicts.Keys);
    AscendingDistinct(ks);
    forall p <- ix.conflicts ensures exists i | 0 <= i < |Conflicts(ix)| :: Conflicts(ix)[i].path == p {
      var i :| 0 <= i < |ks| && ks[i] == p;
      assert Conflicts(ix)[i].path == p;
    }
  }

  function OpenPaths(open: seq<Conflict>): set<string> { set c | c in open :: c.path }

  /** Answered and declined conflicts partition the conflicts of the index. */
  lemma AnswersOfIndex(ix: Index, answers: seq<Answer>)
    requires |answers| == |ix.conflicts|
    ensures |Conflicts(ix)| == |answers|
    ensures var res, open := Resolutions(Conflicts(ix), answers), Unresolved(Conflicts(ix), answers);
            && AllBlobs(res) && res.Keys <= ix.conflicts.Keys
            && ix.conflicts.Keys - res.Keys == OpenPaths(open)
            && |res| + |open| == |ix.conflicts|
  {
    var cs := Conflicts(ix);
    var res, open := Resolutions(cs, answers), Unresolved(cs, answers);
    ConflictsDistinct(ix);
    AnswersPartition(cs, answers);
    forall p <- ix.conflicts ensures p in res || p in OpenPaths(open) {
      var i :| 0 <= i < |cs| && cs[i].path == p;
      if answers[i].Declined? {
        UnresolvedAre(cs, answers, cs[i]);
      }
    }
    forall p <- OpenPaths(open) ensures p in ix.conflicts && p !in res {
      var c :| c in open && c.path == p;
      UnresolvedAre(cs, answers, c);
      var i :| 0 <= i < |cs| && cs[i] == c && answers[i].Declined?;
      DeclinedNotAnswered(cs, answers, i);
    }
  }

  /** Applying the answers: the resolved paths hold exactly the callback's content with no
      conflict entry left, the other conflicts stay as they were, and all other entries are
      unchanged unless a path and a directory of the same name had to exclude each other. */
  lemma ApplyAnswersMeaning(ix: Index, answers: seq<Answer>)
    requires ValidIndex(ix) && |answers| == |ix.conflicts|
    ensures |Conflicts(ix)| == |answers|
    ensures var res, open := Resolutions(Conflicts(ix), answers), Unresolved(Conflicts(ix), answers);
            var out := ApplyAnswers(ix, res);
            && ValidIndex(out)
            && out.conflicts == ix.conflicts - res.Keys
            && (out.conflicts == map[] <==> open == [])
            && out.entries == Overlay(ix.entries, res)
            && (CollisionFree(ix.entries, res) <==> out.entries == ix.entries + res)
  {
    AnswersOfIndex(ix, answers);
    var res, open := Resolutions(Conflicts(ix), answers), Unresolved(Conflicts(ix), answers);
    var ks, choice := SortedKeys(res.Keys), AllSome(res);
    SortedKeysSet(res.Keys);
    SettleMeaning(ix, ks, choice);
    SettleValid(ix, ks, choice);
    ChosenAll(res);
    OverlayExact(ix.entries, res);
    NothingOpen(ix, res, open);
  }

  lemma NothingOpen(ix: Index, res: map<string, Object>, open: seq<Conflict>)
    requires ix.conflicts.Keys - res.Keys == OpenPaths(open)
    ensures ix.conflicts - res.Keys == map[] <==> open == []
  {
    assert (ix.conflicts - res.Keys).Keys == OpenPaths(open);
    if open != [] {
      assert open[0].path in OpenPaths(open);
    }
  }
}
