/** Strings as the repository uses them: the order a `std::map<std::string, ...>` is
    iterated in, the search for one character, and the option and result types. */
module Text {

  newtype byte = b: int | 0 <= b < 256
  type Bytes = seq<byte>

  datatype Option<+T> = None | Some(value: T)

  /** A value, or the exception the code raises. */
  datatype Result<+T> = Ok(value: T) | Err(error: string)

  /** Strict lexicographic order: the key order of `std::map<std::string, ...>`. */
  predicate Below(a: string, b: string) {
    b != [] && (a == [] || a[0] < b[0] || (a[0] == b[0] && Below(a[1..], b[1..])))
  }

  lemma {:induction false} BelowTotal(a: string, b: string)
    ensures !(Below(a, b) && Below(b, a))
    ensures Below(a, b) || Below(b, a) || a == b
    ensures a == b ==> !Below(a, b)
  {
    if a != [] && b != [] {
      BelowTotal(a[1..], b[1..]);
      assert a == [a[0]] + a[1..] && b == [b[0]] + b[1..];
    }
  }

  lemma {:induction false} BelowTransitive(a: string, b: string, c: string)
    requires Below(a, b) && Below(b, c)
    ensures Below(a, c)
  {
    if a != [] && a[0] == b[0] == c[0] {
      BelowTransitive(a[1..], b[1..], c[1..]);
    }
  }

  /** A text sorts before everything that extends it. */
  lemma {:induction false} PrefixBelow(a: string, b: string)
    requires a < b
    ensures Below(a, b)
  {
    if a != [] {
      PrefixBelow(a[1..], b[1..]);
    }
  }

  predicate IsLeast(m: string, s: set<string>) {
    m in s && forall x <- s :: x == m || Below(m, x)
  }

  lemma {:induction false} LeastExists(s: set<string>) returns (m: string)
    requires s != {}
    ensures IsLeast(m, s)
  {
    var x :| x in s;
    if s == {x} {
      m := x;
    } else {
      var rest := LeastExists(s - {x});
      BelowTotal(x, rest);
      m := if Below(x, rest) then x else rest;
      forall y <- s ensures y == m || Below(m, y) {
        if m == x && y != x && y != rest {
          BelowTransitive(x, rest, y);
        }
      }
    }
  }

  function Least(s: set<string>): (m: string)
    requires s != {}
    ensures IsLeast(m, s)
  {
    assert exists m :: IsLeast(m, s) by { var m := LeastExists(s); }
    assert forall m, n | IsLeast(m, s) && IsLeast(n, s) :: m == n by {
      forall m, n | IsLeast(m, s) && IsLeast(n, s) ensures m == n { BelowTotal(m, n); }
    }
    var m :| IsLeast(m, s);
    m
  }

  ghost predicate Ascending(ks: seq<string>) {
    forall i, j | 0 <= i < j < |ks| :: Below(ks[i], ks[j])
  }

  /** The keys in iteration order. */
  function SortedKeys(s: set<string>): (ks: seq<string>)
    ensures |ks| == |s|
    ensures forall x :: x in ks <==> x in s
    ensures Ascending(ks)
  {
    if s == {} then [] else
      var m := Least(s);
      var rest := SortedKeys(s - {m});
      assert forall x <- rest :: Below(m, x);
      [m] + rest
  }

  function ToSet(ks: seq<string>): set<string> { set k | k in ks }

  lemma SortedKeysSet(s: set<string>)
    ensures ToSet(SortedKeys(s)) == s
  {
  }

  lemma ToSetSnoc(ks: seq<string>)
    requires ks != []
    ensures ToSet(ks) == ToSet(ks[..|ks| - 1]) + {ks[|ks| - 1]}
  {
    assert ks == ks[..|ks| - 1] + [ks[|ks| - 1]];
  }

  lemma SliceNext(ks: seq<string>, i: nat)
    requires i < |ks|
    ensures ks[..i + 1] == ks[..i] + [ks[i]] && ToSet(ks[..i + 1]) == ToSet(ks[..i]) + {ks[i]}
  {
    assert ks[..i + 1][..i] == ks[..i];
    ToSetSnoc(ks[..i + 1]);
  }

  lemma SliceAll(ks: seq<string>)
    ensures ks[..|ks|] == ks && ks[..0] == [] && ToSet([]) == {}
  {
  }

  lemma AscendingDistinct(ks: seq<string>)
    requires Ascending(ks)
    ensures forall i, j | 0 <= i < |ks| && 0 <= j < |ks| && ks[i] == ks[j] :: i == j
  {
    forall i, j | 0 <= i < j < |ks| ensures ks[i] != ks[j] { BelowTotal(ks[i], ks[j]); }
  }

  lemma SubsetSize<T>(a: set<T>, b: set<T>)
    requires a <= b
    ensures |a| <= |b|
  {
    if a != {} {
      var x :| x in a;
      SubsetSize(a - {x}, b - {x});
    }
  }

  /** The position of the first `c`, or -1: `std::string::find`. */
  function Find(s: string, c: char): (i: int)
    ensures -1 <= i < |s|
    ensures i >= 0 ==> s[i] == c
    ensures forall k | 0 <= k < if i < 0 then |s| else i :: s[k] != c
  {
    if s == [] then -1
    else if s[0] == c then 0
    else
      var k := Find(s[1..], c);
      if k < 0 then -1 else k + 1
  }

  lemma FindFirst(a: string, c: char, b: string)
    requires c !in a
    ensures Find(a + [c] + b, c) == |a|
  {
    assert (a + [c] + b)[|a|] == c;
  }
}
