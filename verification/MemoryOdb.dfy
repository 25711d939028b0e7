/** The in-memory object database backend: a map from hexadecimal ids to objects, changed in
    place by writes and searched by id prefix with an early exit. */
module MemoryOdb {
  import opened Text

  datatype StoredObject = StoredObject(kind: nat, data: Bytes)

  type Store = map<string, StoredObject>

  datatype Lookup = NotFound | Ambiguous | Found(key: string, content: StoredObject)

  const ID_LENGTH := 40

  function Matches(s: Store, prefix: string): set<string> {
    set k | k in s && prefix <= k
  }

  /** The exact answer to a prefix lookup: by how many ids start with the prefix. */
  ghost predicate IsLookup(s: Store, prefix: string, r: Lookup) {
    match r
    case NotFound => Matches(s, prefix) == {}
    case Found(k, o) => Matches(s, prefix) == {k} && s[k] == o
    case Ambiguous => |Matches(s, prefix)| > 1
  }

  class MemoryOdb {
    var objects: Store

    constructor ()
      ensures objects == map[]
    {
      objects := map[];
    }

    method Read(oid: string) returns (r: Option<StoredObject>)
      ensures r == if oid in objects then Some(objects[oid]) else None
    {
      if oid in objects {
        return Some(objects[oid]);
      }
      return None;
    }

    /** Looks an object up by the first `len` digits of an id. */
    method ReadPrefix(shortId: string, len: nat) returns (r: Lookup)
      ensures IsLookup(objects, if len < |shortId| then shortId[..len] else shortId, r)
    {
      var prefix := if len < |shortId| then shortId[..len] else shortId;
      var keys := SortedKeys(objects.Keys);
      var found: Option<StoredObject>, foundKey, matches := None, "", 0;
      for i := 0 to |keys|
        invariant 0 <= matches <= 1 && (found.Some? <==> matches == 1)
        invariant matches == 1 ==> foundKey in keys[..i] && prefix <= foundKey && found == Some(objects[foundKey])
        invariant forall k | 0 <= k < i && prefix <= keys[k] :: matches == 1 && foundKey == keys[k]
      {
        if prefix <= keys[i] {
          matches := matches + 1;
          if matches > 1 {
            TwoMatches(objects, prefix, keys, i, foundKey);
            return Ambiguous;
          }
          found, foundKey := Some(objects[keys[i]]), keys[i];
        }
      }
      if found.None? {
        NoMatch(objects, prefix, keys);
        return NotFound;
      }
      OneMatch(objects, prefix, keys, foundKey);
      return Found(foundKey, found.value);
    }

    /** Completes an id from its first `len` digits. */
    method ExistsPrefix(shortId: string, len: nat) returns (r: Lookup)
      ensures IsLookup(objects, if len < |shortId| then shortId[..len] else shortId, r)
    {
      var prefix := if len < |shortId| then shortId[..len] else shortId;
      var keys := SortedKeys(objects.Keys);
      var foundKey, matches := "", 0;
      for i := 0 to |keys|
        invariant 0 <= matches <= 1
        invariant matches == 1 ==> foundKey in keys[..i] && prefix <= foundKey
        invariant forall k | 0 <= k < i && prefix <= keys[k] :: matches == 1 && foundKey == keys[k]
      {
        if prefix <= keys[i] {
          matches := matches + 1;
          if matches > 1 {
            TwoMatches(objects, prefix, keys, i, foundKey);
            return Ambiguous;
          }
          foundKey := keys[i];
        }
      }
      if matches == 0 {
        NoMatch(objects, prefix, keys);
        return NotFound;
      }
      OneMatch(objects, prefix, keys, foundKey);
      return Found(foundKey, objects[foundKey]);
    }

    method Write(oid: string, content: StoredObject)
      modifies this
      ensures objects == old(objects)[oid := content]
    {
      objects := objects[oid := content];
    }

    /** Hands the ids to a callback in order, until it returns something other than 0. */
    method Foreach(callback: string -> int) returns (visited: seq<string>, rc: int)
      ensures visited <= SortedKeys(objects.Keys)
      ensures rc == 0 ==> visited == SortedKeys(objects.Keys) && forall k <- visited :: callback(k) == 0
      ensures rc != 0 ==> visited != [] && callback(visited[|visited| - 1]) == rc
                          && forall i | 0 <= i < |visited| - 1 :: callback(visited[i]) == 0
    {
      visited, rc := VisitAll(SortedKeys(objects.Keys), callback);
    }

    static method VisitAll(keys: seq<string>, callback: string -> int) returns (visited: seq<string>, rc: int)
      ensures visited <= keys
      ensures rc == 0 ==> visited == keys && forall k <- visited :: callback(k) == 0
      ensures rc != 0 ==> visited != [] && callback(visited[|visited| - 1]) == rc
                          && forall i | 0 <= i < |visited| - 1 :: callback(visited[i]) == 0
    {
      for i := 0 to |keys|
        invariant forall k | 0 <= k < i :: callback(keys[k]) == 0
      {
        rc := callback(keys[i]);
        if rc != 0 {
          return keys[..i + 1], rc;
        }
      }
      return keys, 0;
    }
  }

  lemma TwoMatches(s: Store, prefix: string, keys: seq<string>, i: nat, other: string)
    requires Ascending(keys) && (forall k <- keys :: k in s) && i < |keys|
    requires prefix <= keys[i] && other in keys[..i] && prefix <= other
    ensures |Matches(s, prefix)| > 1
  {
    AscendingDistinct(keys);
    assert {other, keys[i]} <= Matches(s, prefix);
    SubsetSize({other, keys[i]}, Matches(s, prefix));
  }

  lemma NoMatch(s: Store, prefix: string, keys: seq<string>)
    requires (forall k :: k in keys <==> k in s) && forall i | 0 <= i < |keys| :: !(prefix <= keys[i])
    ensures Matches(s, prefix) == {}
  {
    forall k | k in s ensures !(prefix <= k) { assert k in keys; }
  }

  lemma OneMatch(s: Store, prefix: string, keys: seq<string>, key: string)
    requires (forall k :: k in keys <==> k in s) && key in keys && prefix <= key
    requires forall i | 0 <= i < |keys| && prefix <= keys[i] :: keys[i] == key
    ensures Matches(s, prefix) == {key}
  {
    forall k <- Matches(s, prefix) ensures k == key { assert k in keys; }
  }

  /** An object is found just when its id is the only one that starts with the prefix; a lookup is
      ambiguous just when two ids do. */
  lemma LookupExact(s: Store, prefix: string, k: string, o: StoredObject)
    ensures IsLookup(s, prefix, NotFound) <==> forall j <- s :: !(prefix <= j)
    ensures IsLookup(s, prefix, Found(k, o)) <==>
            k in s && s[k] == o && prefix <= k && forall j <- s | prefix <= j :: j == k
    ensures IsLookup(s, prefix, Ambiguous) <==> exists i <- s, j <- s :: i != j && prefix <= i && prefix <= j
  {
    MatchesAre(s, prefix);
    FoundIff(s, prefix, k);
    AmbiguousIff(Matches(s, prefix));
  }

  lemma MatchesAre(s: Store, prefix: string)
    ensures forall j :: j in Matches(s, prefix) <==> j in s && prefix <= j
  {
  }

  lemma FoundIff(s: Store, prefix: string, k: string)
    ensures Matches(s, prefix) == {k} <==> k in s && prefix <= k && forall j <- s | prefix <= j :: j == k
  {
    MatchesAre(s, prefix);
    if Matches(s, prefix) == {k} {
      assert k in Matches(s, prefix);
      forall j <- s | prefix <= j ensures j == k { assert j in Matches(s, prefix); }
    }
  }

  lemma AmbiguousIff(all: set<string>)
    ensures |all| > 1 <==> exists i <- all, j <- all :: i != j
  {
    if i, j :| i in all && j in all && i != j {
      SubsetSize({i, j}, all);
    }
    if |all| > 1 {
      var i :| i in all;
      assert |all - {i}| > 0;
      var j :| j in all - {i};
    }
  }

  /** Two lookups of the same prefix agree, however they are made. */
  lemma LookupsAgree(s: Store, prefix: string, r1: Lookup, r2: Lookup)
    requires IsLookup(s, prefix, r1) && IsLookup(s, prefix, r2)
    ensures r1 == r2
  {
    if r1.Found? && r2.Found? {
      assert r1.key in Matches(s, prefix) && r2.key in Matches(s, prefix);
    }
  }

  /** A longer prefix of the id found finds the same object. */
  lemma LongerPrefix(s: Store, p: string, q: string, r: Lookup)
    requires IsLookup(s, p, r) && r.Found? && p <= q <= r.key
    ensures IsLookup(s, q, r)
  {
    assert r.key in Matches(s, p);
    forall k <- Matches(s, q) ensures k == r.key {
      assert k[..|p|] == p;
      assert k in Matches(s, p);
    }
    assert r.key in Matches(s, q);
  }

  ghost predicate FullIds(s: Store) {
    forall k <- s :: |k| == ID_LENGTH
  }

  /** At full length a prefix lookup is an exact read. */
  lemma FullLengthIsExact(s: Store, id: string, r: Lookup)
    requires FullIds(s) && |id| == ID_LENGTH
    ensures IsLookup(s, id, r) <==> r == if id in s then Found(id, s[id]) else NotFound
  {
    forall k <- Matches(s, id) ensures k == id { assert k[..|id|] == k; }
    if id in s {
      assert Matches(s, id) == {id};
      LookupOf(s, id, Found(id, s[id]), r);
    } else {
      assert Matches(s, id) == {};
      LookupOf(s, id, NotFound, r);
    }
  }

  lemma LookupOf(s: Store, id: string, exact: Lookup, r: Lookup)
    requires IsLookup(s, id, exact)
    ensures IsLookup(s, id, r) <==> r == exact
  {
    if IsLookup(s, id, r) { LookupsAgree(s, id, exact, r); }
  }

  // ---- Content-addressed writes ----

  /** Among these objects ids are as long as ids are, and no two objects share one. */
  ghost predicate NoCollision(xs: set<StoredObject>, idOf: StoredObject -> string) {
    && (forall o <- xs :: |idOf(o)| == ID_LENGTH)
    && (forall o <- xs, p <- xs | idOf(o) == idOf(p) :: o == p)
  }

  ghost predicate Addressed(s: Store, idOf: StoredObject -> string) {
    forall k <- s :: k == idOf(s[k])
  }

  function Contents(os: seq<StoredObject>): set<StoredObject> { set o | o in os }

  function WriteAll(s: Store, os: seq<StoredObject>, idOf: StoredObject -> string): Store {
    if os == [] then s
    else
      var before := WriteAll(s, os[..|os| - 1], idOf);
      before[idOf(os[|os| - 1]) := os[|os| - 1]]
  }

  /** What a store is after writes: ids read as before, written objects read back, and nothing else
      appears. */
  ghost predicate Written(s: Store, os: seq<StoredObject>, idOf: StoredObject -> string, s': Store) {
    && Addressed(s', idOf) && FullIds(s')
    && (forall k <- s :: k in s' && s'[k] == s[k])
    && (forall o <- os :: idOf(o) in s' && s'[idOf(o)] == o)
    && (forall k <- s' :: k in s || s'[k] in os)
  }

  /** Over any writes under their own ids, where no id is shared among the objects stored and
      written. */
  lemma {:induction false} WritesKeepReads(s: Store, os: seq<StoredObject>, idOf: StoredObject -> string)
    requires NoCollision(s.Values + Contents(os), idOf) && Addressed(s, idOf)
    ensures Written(s, os, idOf, WriteAll(s, os, idOf))
  {
    if os == [] {
      forall k <- s ensures |k| == ID_LENGTH { assert s[k] in s.Values; }
    } else {
      var init, o := os[..|os| - 1], os[|os| - 1];
      assert os == init + [o];
      WritesKeepReads(s, init, idOf);
      SameUnderId(s, init, o, idOf, WriteAll(s, init, idOf));
      WrittenNext(s, init, o, idOf, WriteAll(s, init, idOf));
    }
  }

  /** What is under the id of an object already is the object itself. */
  lemma SameUnderId(s: Store, init: seq<StoredObject>, o: StoredObject, idOf: StoredObject -> string, before: Store)
    requires NoCollision(s.Values + Contents(init + [o]), idOf) && Written(s, init, idOf, before)
    ensures |idOf(o)| == ID_LENGTH && (idOf(o) in before ==> before[idOf(o)] == o)
  {
    var xs := s.Values + Contents(init + [o]);
    assert o in init + [o] && o in xs;
    if idOf(o) in before {
      var p := before[idOf(o)];
      if idOf(o) in s { assert p in s.Values; } else { assert p in init + [o]; }
      assert p in xs && idOf(p) == idOf(o);
    }
  }

  lemma WrittenNext(s: Store, init: seq<StoredObject>, o: StoredObject, idOf: StoredObject -> string, before: Store)
    requires Written(s, init, idOf, before)
    requires |idOf(o)| == ID_LENGTH && (idOf(o) in before ==> before[idOf(o)] == o)
    ensures Written(s, init + [o], idOf, before[idOf(o) := o])
  {
    var all, after := init + [o], before[idOf(o) := o];
    forall p <- all ensures idOf(p) in after && after[idOf(p)] == p {
      assert p in init || p == o;
    }
    forall k <- after ensures k in s || after[k] in all {
      if k == idOf(o) { assert all[|init|] == o; } else if k !in s { assert before[k] in init; }
    }
  }

  /** Writes can make a unique prefix ambiguous, but never make it mean another object. */
  lemma WritesKeepPrefixes(s: Store, os: seq<StoredObject>, idOf: StoredObject -> string, prefix: string,
                           r: Lookup, r': Lookup)
    requires NoCollision(s.Values + Contents(os), idOf) && Addressed(s, idOf)
    requires IsLookup(s, prefix, r) && IsLookup(WriteAll(s, os, idOf), prefix, r')
    ensures r.Found? ==> r' == r || r' == Ambiguous
    ensures r.Ambiguous? ==> r' == Ambiguous
  {
    WritesKeepReads(s, os, idOf);
    var s' := WriteAll(s, os, idOf);
    assert Matches(s, prefix) <= Matches(s', prefix);
    SubsetSize(Matches(s, prefix), Matches(s', prefix));
    if r.Found? {
      assert r.key in Matches(s, prefix);
      assert r.key in Matches(s', prefix);
    }
  }

  /** A hash that looks at the first byte only. */
  function FirstByteId(o: StoredObject): string {
    seq(ID_LENGTH, _ => if o.data != [] && o.data[0] == 0 then '0' else '1')
  }

  /** It is not injective, but it keeps two objects apart: an instance for the writes above. */
  lemma TwoObjects() returns (a: StoredObject, b: StoredObject)
    ensures a != b && NoCollision({a, b}, FirstByteId)
    ensures var s: Store := map[]; NoCollision(s.Values + Contents([a, b, a]), FirstByteId) && Addressed(s, FirstByteId)
    ensures Written(map[], [a, b, a], FirstByteId, WriteAll(map[], [a, b, a], FirstByteId))
  {
    a, b := StoredObject(3, [0]), StoredObject(3, [1]);
    assert FirstByteId(a)[0] == '0' && FirstByteId(b)[0] == '1';
    var s: Store := map[];
    assert s.Values + Contents([a, b, a]) == {a, b};
    WritesKeepReads(s, [a, b, a], FirstByteId);
  }
}
