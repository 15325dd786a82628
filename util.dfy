/** The shallow matchers of `util`: `finder`, `removeFiltered` and
    `updateFiltered`. Each walks the collection from the last index to the
    first and, for every query key `p`, tests `p in c && c[p] == query[p]`
    on the document `c` taken at that index; a document matching any one key
    is a hit (OR over the keys), and the hit is acted on once per matching
    key. With `multi` false the walk stops at the first hit. */
module Util {
  import opened Values

  /** `p in c && c[p] == query[p]` for one query entry. */
  predicate KeyMatches(c: Doc, crit: (string, Value)) {
    Member(c, crit.0).Some? && Loose(Member(c, crit.0).value, crit.1)
  }

  /** Some key of the query matches `c`. */
  predicate AnyMatch(c: Doc, q: Query) {
    exists k :: 0 <= k < |q| && KeyMatches(c, q[k])
  }

  /** The indices of the query keys that match `c`. */
  function MatchingKeys(c: Doc, q: Query): set<nat> {
    set k: nat | k < |q| && KeyMatches(c, q[k])
  }

  /** How many times the inner for-in loop fires on `c`. */
  function MatchCount(c: Doc, q: Query): (n: nat)
    ensures n <= |q|
  {
    if q == [] then 0
    else MatchCount(c, q[..|q| - 1]) + (if KeyMatches(c, q[|q| - 1]) then 1 else 0)
  }

  /** The loop fires on `c` exactly when some key matches it. */
  lemma {:induction false} MatchCountSpec(c: Doc, q: Query)
    ensures MatchCount(c, q) > 0 <==> AnyMatch(c, q)
  {
    if q != [] {
      var init := q[..|q| - 1];
      MatchCountSpec(c, init);
      assert forall k :: 0 <= k < |init| ==> init[k] == q[k];
    }
  }

  /** The count is the number of matching query keys. */
  lemma {:induction false} MatchCountIsKeys(c: Doc, q: Query)
    ensures MatchCount(c, q) == |MatchingKeys(c, q)|
  {
    if q != [] {
      var init := q[..|q| - 1];
      var last := |q| - 1;
      MatchCountIsKeys(c, init);
      var a, b := MatchingKeys(c, init), MatchingKeys(c, q);
      var extra: set<nat> := if KeyMatches(c, q[last]) then {last} else {};
      forall k: nat ensures k in b <==> k in a + extra {
        if k < last {
          assert init[k] == q[k];
        }
      }
      assert b == a + extra;
      assert a !! extra by {
        assert forall k :: k in a ==> k < last;
      }
      assert |b| == |a| + |extra|;
    }
  }

  /** The highest index whose document matches, if any. */
  function LastMatch(s: seq<Doc>, q: Query): (r: Option<nat>)
    ensures r.Some? ==> r.value < |s|
  {
    if s == [] then None
    else if AnyMatch(s[|s| - 1], q) then Some(|s| - 1)
    else LastMatch(s[..|s| - 1], q)
  }

  /** The index found matches and no higher one does; nothing is found
      exactly when no document matches. */
  lemma {:induction false} LastMatchSpec(s: seq<Doc>, q: Query)
    ensures LastMatch(s, q).Some? ==> LastMatch(s, q).value < |s| && AnyMatch(s[LastMatch(s, q).value], q)
    ensures LastMatch(s, q).Some? ==> forall j :: LastMatch(s, q).value < j < |s| ==> !AnyMatch(s[j], q)
    ensures LastMatch(s, q).None? <==> forall j :: 0 <= j < |s| ==> !AnyMatch(s[j], q)
  {
    if s != [] && !AnyMatch(s[|s| - 1], q) {
      var init := s[..|s| - 1];
      LastMatchSpec(init, q);
      assert forall j :: 0 <= j < |init| ==> init[j] == s[j];
    }
  }

  lemma LastMatchIs(s: seq<Doc>, q: Query, i: nat)
    requires i < |s| && AnyMatch(s[i], q)
    requires forall j :: i < j < |s| ==> !AnyMatch(s[j], q)
    ensures LastMatch(s, q) == Some(i)
  {
    LastMatchSpec(s, q);
  }

  function Repeat(x: Doc, n: nat): (r: seq<Doc>)
    ensures |r| == n && forall i :: 0 <= i < n ==> r[i] == x
  {
    seq(n, _ => x)
  }

  /** What `finder(collection, query, true)` returns: walking down from the
      last index, each document once for every key it matches. */
  function FinderAll(s: seq<Doc>, q: Query): seq<Doc> {
    if s == [] then [] else FinderAll(s[1..], q) + Repeat(s[0], MatchCount(s[0], q))
  }

  /** What `finder(collection, query, false)` returns. */
  function FinderOne(s: seq<Doc>, q: Query): seq<Doc> {
    match LastMatch(s, q)
    case None => []
    case Some(i) => [s[i]]
  }

  function TotalMatches(s: seq<Doc>, q: Query): nat {
    if s == [] then 0 else MatchCount(s[0], q) + TotalMatches(s[1..], q)
  }

  /** The multi-mode result holds one entry per matching (document, key) pair. */
  lemma {:induction false} FinderAllLength(s: seq<Doc>, q: Query)
    ensures |FinderAll(s, q)| == TotalMatches(s, q)
  {
    if s != [] {
      FinderAllLength(s[1..], q);
    }
  }

  /** Every entry of the multi-mode result is a matching document of the
      collection. */
  lemma {:induction false} FinderAllMembers(s: seq<Doc>, q: Query)
    ensures forall x :: x in FinderAll(s, q) ==> x in s && AnyMatch(x, q)
  {
    if s != [] {
      FinderAllMembers(s[1..], q);
      MatchCountSpec(s[0], q);
      forall x | x in FinderAll(s, q) ensures x in s && AnyMatch(x, q) {
        if x in FinderAll(s[1..], q) {
          assert x in s[1..];
        } else {
          assert x == s[0];
        }
      }
    }
  }

  /** The multi-mode result is empty exactly when no document matches. */
  lemma {:induction false} FinderAllEmpty(s: seq<Doc>, q: Query)
    ensures FinderAll(s, q) == [] <==> LastMatch(s, q).None?
  {
    LastMatchSpec(s, q);
    if s != [] {
      var t := s[1..];
      FinderAllEmpty(t, q);
      LastMatchSpec(t, q);
      MatchCountSpec(s[0], q);
      assert FinderAll(s, q) == FinderAll(t, q) + Repeat(s[0], MatchCount(s[0], q));
      if LastMatch(t, q).Some? {
        var j := LastMatch(t, q).value;
        assert t[j] == s[j + 1];
      } else {
        forall m | 0 < m < |s| ensures !AnyMatch(s[m], q) {
          assert s[m] == t[m - 1];
        }
      }
    }
  }

  /** The highest match of a sequence, seen from its first element: the
      highest match of the rest, shifted, or else the first element itself. */
  lemma LastMatchFront(s: seq<Doc>, q: Query)
    requires s != []
    ensures LastMatch(s, q) ==
      match LastMatch(s[1..], q)
      case Some(j) => Some(j + 1)
      case None => if AnyMatch(s[0], q) then Some(0) else None
  {
    var t := s[1..];
    LastMatchSpec(t, q);
    LastMatchSpec(s, q);
    if LastMatch(t, q).Some? {
      var j := LastMatch(t, q).value;
      assert t[j] == s[j + 1];
      forall m | j + 1 < m < |s| ensures !AnyMatch(s[m], q) {
        assert s[m] == t[m - 1];
      }
      LastMatchIs(s, q, j + 1);
    } else {
      forall m | 0 < m < |s| ensures !AnyMatch(s[m], q) {
        assert s[m] == t[m - 1];
      }
      if AnyMatch(s[0], q) {
        LastMatchIs(s, q, 0);
      }
    }
  }

  /** The single-mode result is the first entry of the multi-mode one: the
      highest-index match. */
  lemma {:induction false} FinderOneIsFirst(s: seq<Doc>, q: Query)
    ensures FinderOne(s, q) == if FinderAll(s, q) == [] then [] else FinderAll(s, q)[..1]
  {
    FinderAllEmpty(s, q);
    if s != [] {
      var t := s[1..];
      FinderOneIsFirst(t, q);
      FinderAllEmpty(t, q);
      LastMatchFront(s, q);
      var head := Repeat(s[0], MatchCount(s[0], q));
      assert FinderAll(s, q) == FinderAll(t, q) + head;
      if LastMatch(t, q).Some? {
        var j := LastMatch(t, q).value;
        assert t[j] == s[j + 1];
        assert FinderAll(s, q)[..1] == FinderAll(t, q)[..1];
      } else {
        MatchCountSpec(s[0], q);
        assert FinderAll(s, q) == head;
        if AnyMatch(s[0], q) {
          assert head[..1] == [s[0]];
        }
      }
    }
  }

  /** `splice(i, 1)`: removes the element at `i`, if there is one. */
  function Splice(t: seq<Doc>, i: nat): seq<Doc> {
    if i < |t| then t[..i] + t[i + 1..] else t
  }

  /** Removing the first `n` elements, or all of them when there are fewer. */
  function Drop(n: nat, t: seq<Doc>): seq<Doc> {
    if n <= |t| then t[n..] else []
  }

  /** What `removeFiltered(collection, query, true)` returns. When the walk
      reaches index i, the part of the array from i on is `s[i]` followed by
      what processing the later indices left, and every matching key splices
      index i again: the first removes `s[i]`, each further one the element
      that has moved into its place. */
  function RemovedAll(s: seq<Doc>, q: Query): seq<Doc> {
    if s == [] then [] else Drop(MatchCount(s[0], q), [s[0]] + RemovedAll(s[1..], q))
  }

  /** What `removeFiltered(collection, query, false)` returns. */
  function RemovedLast(s: seq<Doc>, q: Query): seq<Doc> {
    match LastMatch(s, q)
    case None => s
    case Some(i) => s[..i] + s[i + 1..]
  }

  /** The documents that match no query key, in their original order. */
  function Survivors(s: seq<Doc>, q: Query): seq<Doc> {
    if s == [] then []
    else (if AnyMatch(s[0], q) then [] else [s[0]]) + Survivors(s[1..], q)
  }

  predicate IsSubsequence(a: seq<Doc>, b: seq<Doc>)
    decreases |b|
  {
    a == [] || (b != [] && ((a[0] == b[0] && IsSubsequence(a[1..], b[1..])) || IsSubsequence(a, b[1..])))
  }

  lemma {:induction false} SuffixSubsequence(a: seq<Doc>, b: seq<Doc>, m: nat)
    requires IsSubsequence(a, b) && m <= |a|
    ensures IsSubsequence(a[m..], b)
    decreases |b|, m
  {
    if m > 0 {
      if a[0] == b[0] && IsSubsequence(a[1..], b[1..]) {
        SuffixSubsequence(a[1..], b[1..], m - 1);
        assert a[1..][m - 1..] == a[m..];
      } else {
        SuffixSubsequence(a, b[1..], m);
      }
    }
  }

  /** Multi-mode removal never keeps a matching document and keeps the rest in
      their original order; it may delete non-matching documents as well. */
  lemma {:induction false} RemovedAllKeepsOrder(s: seq<Doc>, q: Query)
    ensures IsSubsequence(RemovedAll(s, q), Survivors(s, q))
  {
    if s != [] {
      var rest := RemovedAll(s[1..], q);
      var surv := Survivors(s[1..], q);
      RemovedAllKeepsOrder(s[1..], q);
      MatchCountSpec(s[0], q);
      var n := MatchCount(s[0], q);
      if n == 0 {
        assert RemovedAll(s, q) == [s[0]] + rest;
        assert Survivors(s, q) == [s[0]] + surv;
        assert ([s[0]] + rest)[1..] == rest;
        assert ([s[0]] + surv)[1..] == surv;
      } else {
        assert Survivors(s, q) == surv;
        if n - 1 <= |rest| {
          assert Drop(n, [s[0]] + rest) == rest[n - 1..];
          SuffixSubsequence(rest, surv, n - 1);
        }
      }
    }
  }

  /** When no document matches more than one key (in particular for a
      one-key query), multi-mode removal deletes exactly the matching
      documents. */
  lemma {:induction false} RemovedAllSingleKey(s: seq<Doc>, q: Query)
    requires forall i :: 0 <= i < |s| ==> MatchCount(s[i], q) <= 1
    ensures RemovedAll(s, q) == Survivors(s, q)
  {
    if s != [] {
      assert forall i :: 0 <= i < |s[1..]| ==> s[1..][i] == s[i + 1];
      RemovedAllSingleKey(s[1..], q);
      MatchCountSpec(s[0], q);
      var rest := RemovedAll(s[1..], q);
      if MatchCount(s[0], q) == 0 {
        assert RemovedAll(s, q) == [s[0]] + rest;
      } else {
        assert RemovedAll(s, q) == Drop(1, [s[0]] + rest) == rest;
      }
    }
  }

  /** The shallow test is loose: `remove({num: 1})` deletes a document whose
      `num` is the string `"1"`. */
  lemma LooseKeyMatch()
    ensures var d: Doc := Obj([("_id", Str("a")), ("num", Str("1"))]);
            KeyMatches(d, ("num", Int(1))) && RemovedAll([d], [("num", Int(1))]) == []
  {
    var d: Doc := Obj([("_id", Str("a")), ("num", Str("1"))]);
    var q := [("num", Int(1))];
    assert Loose(Str("1"), Int(1)) by {
      LooseNotStrict();
    }
    assert Member(d, "num") == Some(Str("1")) by {
      assert d.fields[0].0[0] != "num"[0];
      assert d.fields[1..][0] == ("num", Str("1"));
    }
    assert KeyMatches(d, q[0]);
    assert q[..0] == [] && q[..1] == q;
    assert MatchCount(d, q) == 1;
    assert [d][1..] == [];
  }

  /** The re-splicing is observable: a document matching two keys takes its
      non-matching neighbour with it. */
  lemma RemovedAllTakesNeighbour()
    ensures var a: Doc := Obj([("x", Int(1)), ("y", Int(1))]);
            var b: Doc := Obj([("z", Int(0))]);
            var q := [("x", Int(1)), ("y", Int(1))];
            RemovedAll([a, b], q) == [] && Survivors([a, b], q) == [b]
  {
    var a: Doc := Obj([("x", Int(1)), ("y", Int(1))]);
    var b: Doc := Obj([("z", Int(0))]);
    var q := [("x", Int(1)), ("y", Int(1))];
    assert Member(a, "x") == Some(Int(1));
    assert Member(a, "y") == Some(Int(1));
    assert Member(b, "x") == None && Member(b, "y") == None;
    assert KeyMatches(a, q[0]) && KeyMatches(a, q[1]);
    assert q[..1] == [q[0]] && q[..1][..0] == [];
    assert MatchCount(a, q[..1]) == 1;
    assert MatchCount(a, q) == 2;
    assert !AnyMatch(b, q);
    assert AnyMatch(a, q);
    assert MatchCount(b, q) == 0;
    var s := [a, b];
    assert s[1..] == [b] && [b][1..] == [];
    assert RemovedAll([b], q) == [b];
    assert RemovedAll(s, q) == Drop(2, [a, b]);
    assert Survivors([b], q) == [b];
  }

  /** The document at one index after the update walk in multi mode. */
  function UpdateDoc(c: Doc, q: Query, data: Doc): Doc {
    if AnyMatch(c, q) then Merge(c, data) else c
  }

  /** What `updateFiltered(collection, query, data, true)` leaves. */
  function UpdatedAll(s: seq<Doc>, q: Query, data: Doc): seq<Doc> {
    if s == [] then [] else [UpdateDoc(s[0], q, data)] + UpdatedAll(s[1..], q, data)
  }

  /** What `updateFiltered(collection, query, data, false)` leaves. */
  function UpdatedLast(s: seq<Doc>, q: Query, data: Doc): seq<Doc> {
    match LastMatch(s, q)
    case None => s
    case Some(i) => s[i := Merge(s[i], data)]
  }

  /** Multi-mode update keeps the length, merges `data` into every matching
      document and leaves every other document as it was. */
  lemma {:induction false} UpdatedAllAt(s: seq<Doc>, q: Query, data: Doc)
    ensures |UpdatedAll(s, q, data)| == |s|
    ensures forall i :: 0 <= i < |s| ==>
      UpdatedAll(s, q, data)[i] == if AnyMatch(s[i], q) then Merge(s[i], data) else s[i]
  {
    if s != [] {
      UpdatedAllAt(s[1..], q, data);
      forall i | 0 < i < |s|
        ensures UpdatedAll(s, q, data)[i] == if AnyMatch(s[i], q) then Merge(s[i], data) else s[i]
      {
        assert UpdatedAll(s, q, data)[i] == UpdatedAll(s[1..], q, data)[i - 1];
        assert s[1..][i - 1] == s[i];
      }
    }
  }

  /** Single-mode removal with a hit deletes exactly one element, the
      highest-index hit, and keeps every other document in order. */
  lemma RemovedLastAt(s: seq<Doc>, q: Query, i: nat)
    requires i < |s| && AnyMatch(s[i], q)
    requires forall j :: i < j < |s| ==> !AnyMatch(s[j], q)
    ensures |RemovedLast(s, q)| == |s| - 1 && RemovedLast(s, q) == s[..i] + s[i + 1..]
  {
    LastMatchIs(s, q, i);
  }

  /** Single-mode removal without a hit changes nothing. */
  lemma RemovedLastNoHit(s: seq<Doc>, q: Query)
    requires forall j :: 0 <= j < |s| ==> !AnyMatch(s[j], q)
    ensures RemovedLast(s, q) == s
  {
    LastMatchSpec(s, q);
  }

  /** Single-mode update keeps the length, merges `data` into the
      highest-index hit and leaves every other document as it was. */
  lemma UpdatedLastAt(s: seq<Doc>, q: Query, data: Doc)
    ensures |UpdatedLast(s, q, data)| == |s|
    ensures forall j :: 0 <= j < |s| ==>
      UpdatedLast(s, q, data)[j] == if LastMatch(s, q) == Some(j) then Merge(s[j], data) else s[j]
    ensures LastMatch(s, q).Some? ==> AnyMatch(s[LastMatch(s, q).value], q)
  {
    LastMatchSpec(s, q);
  }

  /** With an empty query no loop body fires: nothing is found, removed or
      updated. */
  lemma EmptyQueryIsInert(s: seq<Doc>, data: Doc)
    ensures FinderAll(s, []) == [] && FinderOne(s, []) == []
    ensures RemovedAll(s, []) == s && RemovedLast(s, []) == s
    ensures UpdatedAll(s, [], data) == s && UpdatedLast(s, [], data) == s
  {
    FinderAllEmpty(s, []);
    FinderOneIsFirst(s, []);
    assert forall i :: 0 <= i < |s| ==> MatchCount(s[i], []) <= 1;
    RemovedAllSingleKey(s, []);
    SurvivorsOfNothing(s);
    UpdatedAllAt(s, [], data);
  }

  lemma {:induction false} SurvivorsOfNothing(s: seq<Doc>)
    ensures Survivors(s, []) == s
  {
    if s != [] {
      SurvivorsOfNothing(s[1..]);
    }
  }

  lemma MatchCountStep(c: Doc, q: Query, k: nat)
    requires k < |q|
    ensures MatchCount(c, q[..k + 1]) == MatchCount(c, q[..k]) + (if KeyMatches(c, q[k]) then 1 else 0)
  {
    assert q[..k + 1][..k] == q[..k];
  }

  lemma RepeatStep(x: Doc, n: nat)
    ensures Repeat(x, n + 1) == Repeat(x, n) + [x]
  {
  }

  lemma SuffixStep(s: seq<Doc>, i: nat)
    requires i < |s|
    ensures s[i..] == [s[i]] + s[i + 1..]
    ensures s[..i + 1] == s[..i] + [s[i]]
  {
  }

  lemma SpliceDrop(p: seq<Doc>, t: seq<Doc>, n: nat)
    ensures Splice(p + Drop(n, t), |p|) == p + Drop(n + 1, t)
  {
    if n < |t| {
      assert (p + t[n..])[..|p|] == p;
      assert (p + t[n..])[|p| + 1..] == t[n + 1..];
    } else if n == |t| {
      assert p + t[n..] == p;
    }
  }

  /** `finder`: the documents hit, walking from the last index down. The
      inner for-in loop over the keys is `PushKeys`; its `break loop` in
      single mode is the `stopped` result, on which the outer walk ends too. */
  method Finder(collection: seq<Doc>, query: Query, multi: bool) returns (ret: seq<Doc>)
    ensures multi ==> ret == FinderAll(collection, query)
    ensures !multi ==> ret == FinderOne(collection, query)
  {
    ret := [];
    var i := |collection| - 1;
    FinderStart(collection, query);
    while i >= 0
      invariant -1 <= i < |collection|
      invariant multi ==> ret == FinderAll(collection[i + 1..], query)
      invariant !multi ==> ret == [] && LastMatch(collection, query) == LastMatch(collection[..i + 1], query)
    {
      ghost var done := ret;
      var stopped;
      ret, stopped := PushKeys(ret, collection[i], query, multi);
      if stopped {
        FoundLast(collection, query, i);
        return;
      }
      FinderStep(collection, query, i, multi, done, ret);
      i := i - 1;
    }
    FinderDone(collection, query);
  }

  /** The inner loop of `finder` on the document `c`: each matching key
      pushes `c` once, and in single mode the first one ends the loop with
      `stopped` set. */
  method PushKeys(ret: seq<Doc>, c: Doc, query: Query, multi: bool) returns (r: seq<Doc>, stopped: bool)
    ensures stopped <==> !multi && AnyMatch(c, query)
    ensures stopped ==> r == ret + [c]
    ensures !stopped ==> r == ret + Repeat(c, MatchCount(c, query))
    ensures !stopped && !multi ==> r == ret
  {
    r := ret;
    var k := 0;
    while k < |query|
      invariant 0 <= k <= |query|
      invariant r == ret + Repeat(c, MatchCount(c, query[..k]))
      invariant !multi ==> MatchCount(c, query[..k]) == 0
    {
      MatchCountStep(c, query, k);
      if KeyMatches(c, query[k]) {
        RepeatStep(c, MatchCount(c, query[..k]));
        r := r + [c];
        if !multi {
          return r, true;
        }
      }
      k := k + 1;
    }
    MatchCountWhole(c, query);
    MatchCountSpec(c, query);
    stopped := false;
  }

  lemma MatchCountWhole(c: Doc, q: Query)
    ensures MatchCount(c, q[..|q|]) == MatchCount(c, q)
  {
    assert q[..|q|] == q;
  }

  /** Before the walk of `finder`, nothing has been collected. */
  lemma FinderStart(s: seq<Doc>, q: Query)
    ensures [] == FinderAll(s[|s|..], q)
    ensures LastMatch(s, q) == LastMatch(s[..|s|], q)
  {
    assert s[..|s|] == s;
  }

  /** The walk of `finder` that runs past index 0 has seen everything. */
  lemma FinderDone(s: seq<Doc>, q: Query)
    ensures FinderAll(s[0..], q) == FinderAll(s, q)
    ensures LastMatch(s[..0], q) == None
  {
    assert s[0..] == s;
  }

  /** A match at `i` with nothing above it is the highest match. */
  lemma FoundLast(s: seq<Doc>, q: Query, i: nat)
    requires i < |s| && AnyMatch(s[i], q)
    requires LastMatch(s, q) == LastMatch(s[..i + 1], q)
    ensures LastMatch(s, q) == Some(i)
  {
    assert s[..i + 1][i] == s[i];
  }

  /** Passing over a document that matches no key. */
  lemma PassOver(s: seq<Doc>, q: Query, i: nat)
    requires i < |s| && MatchCount(s[i], q) == 0
    ensures LastMatch(s[..i + 1], q) == LastMatch(s[..i], q)
  {
    MatchCountSpec(s[i], q);
    assert s[..i + 1][i] == s[i];
    assert s[..i + 1][..i] == s[..i];
  }

  /** One step of the outer loop of `finder`. */
  lemma FinderStep(s: seq<Doc>, q: Query, i: nat, multi: bool, done: seq<Doc>, ret: seq<Doc>)
    requires i < |s|
    requires multi ==> done == FinderAll(s[i + 1..], q) && ret == done + Repeat(s[i], MatchCount(s[i], q))
    requires !multi ==> !AnyMatch(s[i], q)
    requires !multi ==> ret == done
    requires !multi ==> LastMatch(s, q) == LastMatch(s[..i + 1], q)
    ensures multi ==> ret == FinderAll(s[i..], q)
    ensures !multi ==> LastMatch(s, q) == LastMatch(s[..i], q)
  {
    assert s[i..][1..] == s[i + 1..];
    if !multi {
      MatchCountSpec(s[i], q);
      PassOver(s, q, i);
    }
  }

  lemma RemovedAllStep(s: seq<Doc>, q: Query, i: nat)
    requires i < |s|
    ensures RemovedAll(s[i..], q) == Drop(MatchCount(s[i], q), [s[i]] + RemovedAll(s[i + 1..], q))
  {
    assert s[i..][1..] == s[i + 1..];
  }

  /** `removeFiltered`: deletes the hits in place with `splice(i, 1)`, once
      per matching key. The inner for-in loop over the keys is `SpliceKeys`;
      its `break loop` in single mode is the `stopped` result, on which the
      outer walk ends too. */
  method RemoveFiltered(collection: seq<Doc>, query: Query, multi: bool) returns (ret: seq<Doc>)
    ensures multi ==> ret == RemovedAll(collection, query)
    ensures !multi ==> ret == RemovedLast(collection, query)
  {
    ret := collection;
    var i := |collection| - 1;
    WalkStart(collection, query, multi);
    while i >= 0
      invariant -1 <= i < |collection|
      invariant ret == collection[..i + 1] + Rest(collection, query, i, multi)
      invariant !multi ==> LastMatch(collection, query) == LastMatch(collection[..i + 1], query)
    {
      WalkAt(collection, query, i, multi, ret);
      var next, stopped := SpliceKeys(ret, i, query, multi);
      if stopped {
        StopAtHit(collection, query, i, ret);
        ret := next;
        return;
      }
      DocStep(collection, query, i, multi, next);
      ret := next;
      i := i - 1;
    }
    WalkDone(collection, query, multi, ret);
  }

  /** The inner loop of `removeFiltered` on the document `t[i]`: each
      matching key splices index `i` once more, and in single mode the first
      one ends the loop with `stopped` set. */
  method SpliceKeys(t: seq<Doc>, i: nat, query: Query, multi: bool) returns (r: seq<Doc>, stopped: bool)
    requires i < |t|
    ensures stopped <==> !multi && AnyMatch(t[i], query)
    ensures stopped ==> r == Splice(t, i)
    ensures !stopped ==> r == t[..i] + Drop(MatchCount(t[i], query), t[i..])
  {
    var c := t[i];
    ghost var prefix := t[..i];
    ghost var tail := t[i..];
    assert t == prefix + Drop(0, tail);
    r := t;
    var k := 0;
    while k < |query|
      invariant 0 <= k <= |query|
      invariant r == prefix + Drop(MatchCount(c, query[..k]), tail)
      invariant !multi ==> MatchCount(c, query[..k]) == 0
    {
      KeyStep(prefix, tail, c, query, k, r);
      if KeyMatches(c, query[k]) {
        r := Splice(r, i);
        if !multi {
          assert r == Splice(t, i);
          return r, true;
        }
      }
      k := k + 1;
    }
    assert query[..|query|] == query;
    MatchCountSpec(c, query);
    stopped := false;
  }

  /** Before the walk of `removeFiltered`, nothing has been processed. */
  lemma WalkStart(s: seq<Doc>, q: Query, multi: bool)
    ensures s == s[..|s|] + Rest(s, q, |s| - 1, multi)
    ensures !multi ==> LastMatch(s, q) == LastMatch(s[..|s|], q)
  {
    assert s[..|s|] == s;
  }

  /** Where the walk of `removeFiltered` stands at index `i`: the document
      there is still `s[i]`, with the untouched prefix before it and the
      processed rest after it. */
  lemma WalkAt(s: seq<Doc>, q: Query, i: nat, multi: bool, t: seq<Doc>)
    requires i < |s| && t == s[..i + 1] + Rest(s, q, i, multi)
    ensures i < |t| && t[i] == s[i]
    ensures t[..i] == s[..i] && t[i..] == [s[i]] + Rest(s, q, i, multi)
  {
    assert s[..i + 1] == s[..i] + [s[i]];
  }

  /** The single-mode walk of `removeFiltered` stops at its first hit, which
      is the highest-index match, having spliced it out. */
  lemma StopAtHit(s: seq<Doc>, q: Query, i: nat, t: seq<Doc>)
    requires i < |s| && AnyMatch(s[i], q)
    requires LastMatch(s, q) == LastMatch(s[..i + 1], q)
    requires t == s[..i + 1] + Rest(s, q, i, false)
    ensures Splice(t, i) == RemovedLast(s, q)
  {
    FoundLast(s, q, i);
    WalkAt(s, q, i, false, t);
    assert Splice(t, i) == s[..i] + s[i + 1..];
  }

  /** The walk of `removeFiltered` that runs past index 0 has left the
      result. */
  lemma WalkDone(s: seq<Doc>, q: Query, multi: bool, ret: seq<Doc>)
    requires ret == s[..0] + Rest(s, q, -1, multi)
    requires !multi ==> LastMatch(s, q) == LastMatch(s[..0], q)
    ensures multi ==> ret == RemovedAll(s, q)
    ensures !multi ==> ret == RemovedLast(s, q)
  {
    assert s[..0] == [] && s[0..] == s;
  }

  /** One step of the inner loop of `removeFiltered`: a matching key splices
      index `|prefix|` once more. */
  lemma KeyStep(prefix: seq<Doc>, tail: seq<Doc>, c: Doc, q: Query, k: nat, ret: seq<Doc>)
    requires k < |q| && ret == prefix + Drop(MatchCount(c, q[..k]), tail)
    ensures KeyMatches(c, q[k]) ==> Splice(ret, |prefix|) == prefix + Drop(MatchCount(c, q[..k + 1]), tail)
    ensures !KeyMatches(c, q[k]) ==> ret == prefix + Drop(MatchCount(c, q[..k + 1]), tail)
    ensures MatchCount(c, q[..k + 1]) == MatchCount(c, q[..k]) + (if KeyMatches(c, q[k]) then 1 else 0)
  {
    MatchCountStep(c, q, k);
    SpliceDrop(prefix, tail, MatchCount(c, q[..k]));
  }

  /** One step of the outer loop of `removeFiltered`. */
  lemma DocStep(s: seq<Doc>, q: Query, i: nat, multi: bool, ret: seq<Doc>)
    requires i < |s|
    requires ret == s[..i] + Drop(MatchCount(s[i], q), [s[i]] + Rest(s, q, i, multi))
    requires !multi ==> !AnyMatch(s[i], q)
    requires !multi ==> LastMatch(s, q) == LastMatch(s[..i + 1], q)
    ensures ret == s[..i] + Rest(s, q, i - 1, multi)
    ensures !multi ==> LastMatch(s, q) == LastMatch(s[..i], q)
  {
    MatchCountSpec(s[i], q);
    RestStep(s, q, i, multi);
    if !multi {
      PassOver(s, q, i);
    }
  }

  /** What the walk of `removeFiltered` has left after index `i`: in multi
      mode the processed suffix, in single mode (no hit yet) the suffix as
      it was. */
  function Rest(s: seq<Doc>, q: Query, i: int, multi: bool): seq<Doc>
    requires -1 <= i < |s|
  {
    if multi then RemovedAll(s[i + 1..], q) else s[i + 1..]
  }

  lemma RestStep(s: seq<Doc>, q: Query, i: nat, multi: bool)
    requires i < |s|
    requires !multi ==> MatchCount(s[i], q) == 0
    ensures s[..i] + Drop(MatchCount(s[i], q), [s[i]] + Rest(s, q, i, multi)) == s[..i] + Rest(s, q, i - 1, multi)
  {
    assert s[i..][1..] == s[i + 1..];
    if !multi {
      assert s[i..] == [s[i]] + s[i + 1..];
    }
  }


  /** `updateFiltered`: replaces each hit in place by `merge(c, data)`, once
      per matching key, where `c` is the document read at that index. The
      inner for-in loop over the keys is `MergeKeys`; its `break loop` in
      single mode is the `stopped` result, on which the outer walk ends too. */
  method UpdateFiltered(collection: array<Doc>, query: Query, data: Doc, multi: bool)
    modifies collection
    ensures multi ==> collection[..] == UpdatedAll(old(collection[..]), query, data)
    ensures !multi ==> collection[..] == UpdatedLast(old(collection[..]), query, data)
  {
    ghost var s := collection[..];
    var n := collection.Length;
    var i := n - 1;
    while i >= 0
      invariant -1 <= i < n
      invariant forall j :: 0 <= j <= i ==> collection[j] == s[j]
      invariant multi ==> forall j :: i < j < n ==> collection[j] == UpdateDoc(s[j], query, data)
      invariant !multi ==> forall j :: i < j < n ==> collection[j] == s[j] && !AnyMatch(s[j], query)
    {
      var stopped := MergeKeys(collection, i, query, data, multi);
      if stopped {
        LastMatchIs(s, query, i);
        assert collection[..] == s[i := Merge(s[i], data)];
        return;
      }
      i := i - 1;
    }
    if multi {
      UpdatedAllAt(s, query, data);
      assert collection[..] == UpdatedAll(s, query, data);
    } else {
      LastMatchSpec(s, query);
      assert collection[..] == s;
    }
  }

  /** The inner loop of `updateFiltered` on the document `c` at index `i`:
      a matching key stores `merge(c, data)` there, and in single mode the
      first one ends the loop with `stopped` set. */
  method MergeKeys(collection: array<Doc>, i: nat, query: Query, data: Doc, multi: bool) returns (stopped: bool)
    requires i < collection.Length
    modifies collection
    ensures stopped <==> !multi && AnyMatch(old(collection[i]), query)
    ensures collection[..] == old(collection[..])[i := UpdateDoc(old(collection[i]), query, data)]
  {
    var c := collection[i];
    var k := 0;
    while k < |query|
      invariant 0 <= k <= |query|
      invariant collection[..] == old(collection[..])[i := UpdateDoc(c, query[..k], data)]
      invariant !multi ==> !AnyMatch(c, query[..k])
    {
      AnyMatchStep(c, query, k);
      if KeyMatches(c, query[k]) {
        collection[i] := Merge(c, data);
        if !multi {
          return true;
        }
      }
      k := k + 1;
    }
    AnyMatchWhole(c, query);
    return false;
  }

  /** One more key: the prefix `q[..k + 1]` matches when `q[..k]` does or
      key `k` does. */
  lemma AnyMatchStep(c: Doc, q: Query, k: nat)
    requires k < |q|
    ensures AnyMatch(c, q[..k + 1]) <==> AnyMatch(c, q[..k]) || KeyMatches(c, q[k])
  {
    assert q[..k + 1][k] == q[k];
    assert forall j :: 0 <= j < k ==> q[..k + 1][j] == q[..k][j];
  }

  lemma AnyMatchWhole(c: Doc, q: Query)
    ensures AnyMatch(c, q[..|q|]) == AnyMatch(c, q)
  {
    assert q[..|q|] == q;
  }
}
