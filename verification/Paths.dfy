/** Repository paths: '/'-separated text, its components, and the path check every file
    operation starts with. */
module Paths {
  import opened Text

  /** The components of a path; a path without '/' has one. */
  function Split(p: string): (cs: seq<string>)
    ensures |cs| >= 1
    decreases |p|
  {
    var i := Find(p, '/');
    if i < 0 then [p] else [p[..i]] + Split(p[i + 1..])
  }

  function Join(cs: seq<string>): string
    requires |cs| >= 1
  {
    if |cs| == 1 then cs[0] else cs[0] + "/" + Join(cs[1..])
  }

  predicate NoSlash(cs: seq<string>) {
    forall c <- cs :: '/' !in c
  }

  /** The two ways a path splits: it is one component, or a first one and the rest. */
  lemma SplitCases(p: string) returns (a: string, r: string)
    ensures '/' !in a
    ensures '/' in p ==> p == a + "/" + r && |r| < |p| && Split(p) == [a] + Split(r)
    ensures '/' !in p ==> p == a && Split(p) == [p]
  {
    var i := Find(p, '/');
    if i < 0 {
      a, r := p, "";
    } else {
      a, r := p[..i], p[i + 1..];
    }
  }

  lemma {:induction false} JoinSplit(p: string)
    ensures Join(Split(p)) == p && NoSlash(Split(p))
    decreases |p|
  {
    var a, r := SplitCases(p);
    if '/' in p {
      JoinSplit(r);
      assert ([a] + Split(r))[1..] == Split(r);
    }
  }

  lemma {:induction false} SplitJoin(cs: seq<string>)
    requires |cs| >= 1 && NoSlash(cs)
    ensures Split(Join(cs)) == cs
  {
    if |cs| > 1 {
      var a, rest := cs[0], cs[1..];
      calc {
        Split(Join(cs));
        Split(a + "/" + Join(rest));
        { SplitFirst(a, Join(rest)); }
        [a] + Split(Join(rest));
        { SplitJoin(rest); }
        [a] + rest;
        cs;
      }
    } else {
      assert '/' !in cs[0];
    }
  }

  /** `p` names a directory above `q`. */
  predicate DirPrefix(p: string, q: string) {
    p + "/" <= q
  }

  lemma SplitFirst(a: string, r: string)
    requires '/' !in a
    ensures Split(a + "/" + r) == [a] + Split(r)
  {
    FindFirst(a, '/', r);
    assert (a + "/" + r)[|a| + 1..] == r && (a + "/" + r)[..|a|] == a;
  }

  lemma Regroup(a: string, p: string, r: string)
    ensures (a + "/" + p) + "/" + r == a + "/" + (p + "/" + r)
  {
  }

  lemma SplitAppendStep(a: string, p: string, r: string)
    requires '/' !in a && Split(p + "/" + r) == Split(p) + Split(r)
    ensures Split((a + "/" + p) + "/" + r) == Split(a + "/" + p) + Split(r)
  {
    calc {
      Split((a + "/" + p) + "/" + r);
      { Regroup(a, p, r); }
      Split(a + "/" + (p + "/" + r));
      { SplitFirst(a, p + "/" + r); }
      [a] + (Split(p) + Split(r));
      ([a] + Split(p)) + Split(r);
      { SplitFirst(a, p); }
      Split(a + "/" + p) + Split(r);
    }
  }

  lemma {:induction false} SplitAppend(p: string, r: string)
    ensures Split(p + "/" + r) == Split(p) + Split(r)
    decreases |p|
  {
    var a, p' := SplitCases(p);
    if '/' in p {
      SplitAppend(p', r);
      SplitAppendStep(a, p', r);
    } else {
      SplitFirst(p, r);
    }
  }

  lemma {:induction false} JoinAppend(cs: seq<string>, ds: seq<string>)
    requires |cs| >= 1 && |ds| >= 1
    ensures Join(cs + ds) == Join(cs) + "/" + Join(ds)
  {
    if |cs| == 1 {
      assert (cs + ds)[1..] == ds;
    } else {
      JoinAppend(cs[1..], ds);
      assert (cs + ds)[1..] == cs[1..] + ds;
    }
  }

  /** A directory prefix of the text is a proper prefix of the component list. */
  lemma DirPrefixSplit(p: string, q: string)
    ensures DirPrefix(p, q) <==> Split(p) < Split(q)
  {
    if DirPrefix(p, q) {
      var r := q[|p| + 1..];
      assert q == p + "/" + r;
      SplitAppend(p, r);
    }
    if Split(p) < Split(q) {
      var ds := Split(q)[|Split(p)|..];
      assert Split(q) == Split(p) + ds;
      JoinAppend(Split(p), ds);
      JoinSplit(p);
      JoinSplit(q);
    }
  }

  lemma DirPrefixBelow(p: string, q: string)
    requires DirPrefix(p, q)
    ensures Below(p, q)
  {
    assert q[..|p|] == (p + "/")[..|p|] == p;
    PrefixBelow(p, q);
  }

  /** What the path check promises: relative, not empty, no ".." component. */
  predicate ValidRepoPath(p: string) {
    p != "" && p[0] != '/' && ".." !in Split(p)
  }

  /** Two dots stand at `i`, between slashes or the ends of the text. */
  predicate DotDotAt(p: string, i: nat) {
    && i + 2 <= |p| && p[i] == '.' && p[i + 1] == '.'
    && (i == 0 || p[i - 1] == '/') && (i + 2 == |p| || p[i + 2] == '/')
  }

  /** The check, told from the characters of the path. */
  lemma ValidPathText(p: string)
    ensures ValidRepoPath(p) <==> p != "" && p[0] != '/' && forall i: nat | i < |p| :: !DotDotAt(p, i)
  {
    DotDotComponent(p);
  }

  lemma {:induction false} DotDotComponent(p: string)
    ensures ".." in Split(p) <==> exists i: nat | i < |p| :: DotDotAt(p, i)
    decreases |p|
  {
    var a, r := SplitCases(p);
    if '/' in p {
      DotDotComponent(r);
      RestComponents(p, a, r);
      FirstComponent(p, a, r);
      assert ".." in Split(p) <==> a == ".." || ".." in Split(r);
    } else {
      if DotDotAt(p, 0) { assert p == ".."; }
      assert p == ".." ==> DotDotAt(p, 0);
    }
  }

  lemma RestComponents(p: string, a: string, r: string)
    requires p == a + "/" + r
    ensures (exists i: nat | i < |r| :: DotDotAt(r, i)) <==> exists i: nat | |a| < i < |p| :: DotDotAt(p, i)
  {
    forall i: nat | i < |r| ensures DotDotAt(r, i) <==> DotDotAt(p, |a| + 1 + i) {
      assert p[|a|] == '/' && p[|a| + 1..] == r;
    }
    if i: nat :| |a| < i < |p| && DotDotAt(p, i) {
      assert DotDotAt(r, i - |a| - 1);
    }
  }

  lemma FirstComponent(p: string, a: string, r: string)
    requires p == a + "/" + r && '/' !in a
    ensures a == ".." <==> exists i: nat | i <= |a| :: DotDotAt(p, i)
  {
    if a == ".." { assert DotDotAt(p, 0); }
    if i: nat :| i <= |a| && DotDotAt(p, i) {
      assert p[|a|] == '/';
      assert forall k | 0 <= k < |a| :: p[k] == a[k] && a[k] in a;
    }
  }

  /** The check itself, which walks from slash to slash. */
  method ValidateRepoPath(path: string) returns (ok: bool)
    ensures ok == ValidRepoPath(path)
  {
    if path == "" || path[0] == '/' {
      return false;
    }
    var p := path;
    while p != ""
      invariant ".." in Split(path) <==> ".." in Split(p)
      decreases |p|
    {
      var slash := Find(p, '/');
      var len := if slash >= 0 then slash else |p|;
      if len == 2 && p[0] == '.' && p[1] == '.' {
        assert p[..len] == "..";
        assert slash < 0 ==> p == "..";
        return false;
      }
      if slash < 0 {
        assert Split(p) == [p];
        break;
      }
      assert p[..slash] != "..";
      p := p[slash + 1..];
    }
    return true;
  }
}
