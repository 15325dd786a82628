/** The deep matcher of `util`, `ObjectSearcher`: a depth-first search over
    every value nested in the documents, with an explicit stack of pending
    (root, value) pairs, a list of results and a set of the `_id`s already
    reported. */
module Searcher {
  import opened Values
  import Util

  /** An entry `{parent, _obj}` of the stack: a nested value, and the root
      document it belongs to. */
  datatype Pending = Pending(parent: Doc, obj: Value)

  /** The leaf test of `searchObject` at entry `i` for the one-key query
      `{crit.0: crit.1}`: the entry is a leaf, its key is the query key and
      the query value is loosely equal (`==`) to it. */
  predicate LeafHitAt(es: seq<(string, Value)>, i: int, crit: (string, Value)) {
    0 <= i < |es| && IsLeaf(es[i].1) && es[i].0 == crit.0 && Loose(crit.1, es[i].1)
  }

  predicate LeafHitBefore(es: seq<(string, Value)>, n: int, crit: (string, Value)) {
    exists i :: 0 <= i < n && LeafHitAt(es, i, crit)
  }

  /** `searchObject(v, {crit.0: crit.1}, root)` reports the root. */
  predicate LeafHit(v: Value, crit: (string, Value)) {
    LeafHitBefore(Entries(v), |Entries(v)|, crit)
  }

  predicate DirectHitBefore(v: Value, q: Query, n: int) {
    exists k :: 0 <= k < n && k < |q| && LeafHit(v, q[k])
  }

  /** `performSearch(v, query, root)` finds a leaf of `v` itself for some
      criterion. */
  predicate DirectHit(v: Value, q: Query) {
    DirectHitBefore(v, q, |q|)
  }

  /** Some value at or below `v` has a leaf that matches some criterion. */
  predicate Hit(v: Value, q: Query)
    decreases v
  {
    DirectHit(v, q) || exists i :: 0 <= i < |Children(v)| && Hit(Children(v)[i], q)
  }

  /** The correction test: every query field that the root carries at top
      level is strictly equal to the query value. */
  predicate Consistent(r: Doc, q: Query) {
    forall k :: 0 <= k < |q| ==> ConsistentAt(r, q[k])
  }

  predicate ConsistentAt(r: Doc, crit: (string, Value)) {
    Member(r, crit.0).None? || Same(Member(r, crit.0).value, crit.1)
  }

  predicate ConsistentBefore(r: Doc, q: Query, n: int) {
    forall k :: 0 <= k < n && k < |q| ==> ConsistentAt(r, q[k])
  }

  /** No two documents carry the same `_id` key. */
  predicate DistinctIds(s: seq<Doc>) {
    forall a, b :: 0 <= a < b < |s| ==> IdKey(s[a]) != IdKey(s[b])
  }

  function Tag(parent: Doc, vs: seq<Value>): (r: seq<Pending>)
    ensures |r| == |vs| && forall i :: 0 <= i < |vs| ==> r[i] == Pending(parent, vs[i])
  {
    seq(|vs|, i requires 0 <= i < |vs| => Pending(parent, vs[i]))
  }

  function Copies(n: nat, es: seq<Pending>): seq<Pending> {
    if n == 0 then [] else Copies(n - 1, es) + es
  }

  /** What one `performSearch(v, query, root)` pushes: the nested values of
      `v`, once per criterion. */
  function Pushed(parent: Doc, v: Value, m: nat): seq<Pending> {
    Copies(m, Tag(parent, Children(v)))
  }

  /** The work left in a pending value when every visit pushes each nested
      value `m` times: the visit itself plus that of everything it pushes. */
  function Weight(v: Value, m: nat): nat
    decreases v, 1
  {
    1 + m * ChildrenWeight(v, 0, m)
  }

  function ChildrenWeight(v: Value, i: nat, m: nat): nat
    decreases v, 0, |Children(v)| - i
  {
    if i >= |Children(v)| then 0 else Weight(Children(v)[i], m) + ChildrenWeight(v, i + 1, m)
  }

  function StackWeight(st: seq<Pending>, m: nat): nat {
    if st == [] then 0 else StackWeight(st[..|st| - 1], m) + Weight(st[|st| - 1].obj, m)
  }

  lemma {:induction false} StackWeightAppend(a: seq<Pending>, b: seq<Pending>, m: nat)
    ensures StackWeight(a + b, m) == StackWeight(a, m) + StackWeight(b, m)
    decreases |b|
  {
    if b != [] {
      assert (a + b)[..|a + b| - 1] == a + b[..|b| - 1];
      StackWeightAppend(a, b[..|b| - 1], m);
    } else {
      assert a + b == a;
    }
  }

  lemma {:induction false} CopiesWeight(n: nat, es: seq<Pending>, m: nat)
    ensures StackWeight(Copies(n, es), m) == n * StackWeight(es, m)
  {
    if n > 0 {
      CopiesWeight(n - 1, es, m);
      StackWeightAppend(Copies(n - 1, es), es, m);
      Distribute(n - 1, StackWeight(es, m));
    }
  }

  lemma Distribute(n: nat, w: nat)
    ensures n * w + w == (n + 1) * w
  {
  }

  lemma {:induction false} TagWeight(parent: Doc, v: Value, i: nat, m: nat)
    requires i <= |Children(v)|
    ensures StackWeight(Tag(parent, Children(v)[i..]), m) == ChildrenWeight(v, i, m)
    decreases |Children(v)| - i
  {
    var cs := Children(v);
    if i < |cs| {
      TagWeight(parent, v, i + 1, m);
      TagSuffixWeight(parent, cs, i, m);
    } else {
      assert Tag(parent, cs[i..]) == [];
    }
  }

  /** The weight of the tagged suffix from `i` is that of `vs[i]` plus that
      of the tagged suffix from `i + 1`. */
  lemma TagSuffixWeight(parent: Doc, vs: seq<Value>, i: nat, m: nat)
    requires i < |vs|
    ensures StackWeight(Tag(parent, vs[i..]), m) == Weight(vs[i], m) + StackWeight(Tag(parent, vs[i + 1..]), m)
  {
    TagCons(parent, vs[i..]);
    assert vs[i..][1..] == vs[i + 1..];
    StackWeightCons(Pending(parent, vs[i]), Tag(parent, vs[i + 1..]), m);
  }

  lemma StackWeightCons(p: Pending, rest: seq<Pending>, m: nat)
    ensures StackWeight([p] + rest, m) == Weight(p.obj, m) + StackWeight(rest, m)
  {
    StackWeightAppend([p], rest, m);
    assert [p][..0] == [];
  }

  /** Visiting a pending value and pushing what it pushes leaves one unit of
      work less on the stack. */
  lemma VisitWeight(st: seq<Pending>, parent: Doc, v: Value, m: nat)
    ensures StackWeight(st + Pushed(parent, v, m), m) + 1 == StackWeight(st, m) + Weight(v, m)
  {
    StackWeightAppend(st, Pushed(parent, v, m), m);
    CopiesWeight(m, Tag(parent, Children(v)), m);
    TagWeight(parent, v, 0, m);
    assert Children(v)[0..] == Children(v);
  }

  lemma {:induction false} InCopies(n: nat, es: seq<Pending>, x: Pending)
    requires n > 0 && x in es
    ensures x in Copies(n, es)
  {
  }

  lemma {:induction false} FromCopies(n: nat, es: seq<Pending>, x: Pending)
    requires x in Copies(n, es)
    ensures x in es
  {
    if n > 0 && x !in es {
      FromCopies(n - 1, es, x);
    }
  }

  lemma AppendAssoc(a: seq<Pending>, b: seq<Pending>, c: seq<Pending>)
    ensures (a + b) + c == a + (b + c)
  {
  }

  lemma TagCons(parent: Doc, vs: seq<Value>)
    requires vs != []
    ensures Tag(parent, vs) == [Pending(parent, vs[0])] + Tag(parent, vs[1..])
  {
  }

  lemma TagSnoc(parent: Doc, a: seq<Value>, x: Value)
    ensures Tag(parent, a + [x]) == Tag(parent, a) + [Pending(parent, x)]
  {
  }

  /** One entry further in `searchObject`: a non-leaf is pushed, a leaf may
      hit. */
  lemma EntryStep(parent: Doc, es: seq<(string, Value)>, i: nat, crit: (string, Value))
    requires i < |es|
    ensures Tag(parent, NonLeaves(es[..i + 1]))
         == Tag(parent, NonLeaves(es[..i])) + (if IsLeaf(es[i].1) then [] else [Pending(parent, es[i].1)])
    ensures LeafHitBefore(es, i + 1, crit) <==> LeafHitBefore(es, i, crit) || LeafHitAt(es, i, crit)
  {
    assert es[..i + 1][..i] == es[..i];
    assert NonLeaves(es[..i + 1]) == NonLeaves(es[..i]) + (if IsLeaf(es[i].1) then [] else [es[i].1]);
    if !IsLeaf(es[i].1) {
      TagSnoc(parent, NonLeaves(es[..i]), es[i].1);
    }
  }

  lemma NonLeavesWhole(es: seq<(string, Value)>)
    ensures NonLeaves(es[..|es|]) == NonLeaves(es)
  {
    assert es[..|es|] == es;
  }

  /** What the recorded results and ids look like after a search step. */
  function AddRoot(results: seq<Doc>, ids: set<Option<Value>>, hit: bool, root: Doc): seq<Doc> {
    if hit && IdKey(root) !in ids then results + [root] else results
  }

  /** Everything reported is a document of the collection that has a hit
      and passes the correction test, reported under its own `_id`, and no
      `_id` twice. */
  ghost predicate SoundResults(coll: seq<Doc>, q: Query, rs: seq<Doc>, ids: set<Option<Value>>) {
    && (forall x :: x in rs ==> x in coll && Hit(x, q) && Consistent(x, q))
    && (forall x :: x in rs ==> IdKey(x) in ids)
    && (forall a, b :: 0 <= a < b < |rs| ==> IdKey(rs[a]) != IdKey(rs[b]))
  }

  /** Every stack entry belongs to a document of the collection, and a hit
      inside the entry is a hit inside its root. */
  ghost predicate SoundStack(coll: seq<Doc>, q: Query, st: seq<Pending>) {
    forall e :: e in st ==> e.parent in coll && (Hit(e.obj, q) ==> Hit(e.parent, q))
  }

  /** A consistent document whose `_id` has been recorded is among the
      results (when `_id`s are distinct, the recorded root was that
      document, and the correction pass kept it). */
  ghost predicate Recorded(coll: seq<Doc>, q: Query, rs: seq<Doc>, ids: set<Option<Value>>) {
    forall d :: d in coll && IdKey(d) in ids && Consistent(d, q) ==> d in rs
  }

  /** A document with a hit whose `_id` has not been recorded still has its
      hit ahead: it is one of the documents from index `j` on, or a stack
      entry of it holds a hit. */
  ghost predicate Waiting(coll: seq<Doc>, q: Query, j: nat, st: seq<Pending>, ids: set<Option<Value>>) {
    forall d :: d in coll && Hit(d, q) && IdKey(d) !in ids ==>
      (exists t :: j <= t < |coll| && coll[t] == d) || (exists e :: e in st && e.parent == d && Hit(e.obj, q))
  }

  lemma {:induction false} HitNeedsQuery(v: Value, q: Query)
    requires Hit(v, q)
    ensures |q| > 0
    decreases v
  {
    if !DirectHit(v, q) {
      var i :| 0 <= i < |Children(v)| && Hit(Children(v)[i], q);
      HitNeedsQuery(Children(v)[i], q);
    }
  }

  /** A top-level field that is loosely but not strictly equal is a leaf
      hit that the correction pass then removes. */
  lemma LooseHitStrictDrop()
    ensures var d: Doc := Obj([("_id", Str("a")), ("num", Str("1"))]);
            var q := [("num", Int(1))];
            DirectHit(d, q) && !Consistent(d, q)
  {
    var d: Doc := Obj([("_id", Str("a")), ("num", Str("1"))]);
    var q := [("num", Int(1))];
    assert Loose(Int(1), Str("1")) && !Same(Str("1"), Int(1)) by {
      LooseNotStrict();
      LooseSymmetric(Str("1"), Int(1));
    }
    assert LeafHit(d, q[0]) by {
      assert LeafHitAt(Entries(d), 1, q[0]);
    }
    assert Member(d, "num") == Some(Str("1")) by {
      assert d.fields[0].0[0] != "num"[0];
      assert d.fields[1..][0] == ("num", Str("1"));
    }
    assert !ConsistentAt(d, q[0]);
  }

  /** A nested field that is loosely equal is a hit, and a document with no
      top-level field of that name survives the correction. */
  lemma NestedLooseHit()
    ensures var d: Doc := Obj([("_id", Str("a")), ("n", Obj([("num", Str("1"))]))]);
            var q := [("num", Int(1))];
            Hit(d, q) && Consistent(d, q)
  {
    var inner := Obj([("num", Str("1"))]);
    var d: Doc := Obj([("_id", Str("a")), ("n", inner)]);
    var q := [("num", Int(1))];
    var es := d.fields;
    assert Hit(inner, q) by {
      LooseNotStrict();
      LooseSymmetric(Str("1"), Int(1));
      assert LeafHitAt(Entries(inner), 0, q[0]);
      assert DirectHit(inner, q);
    }
    assert Children(d)[0] == inner by {
      assert es[..1] == [es[0]] && es[..1][..0] == [];
      assert NonLeaves(es[..1]) == [] by {
        assert IsLeaf(es[..1][0].1);
      }
      assert !IsLeaf(es[1].1);
      assert NonLeaves(es) == NonLeaves(es[..1]) + [inner];
    }
    assert Member(d, "num").None? by {
      assert es[0].0[0] != "num"[0] && |es[1].0| != |"num"|;
      LookupNone(es, "num");
    }
    assert ConsistentAt(d, q[0]);
  }

  /** A multi-field query is not a conjunction: a top-level match on one
      field is enough when the document has no field of the other name. */
  lemma NotConjunction()
    ensures var d: Doc := Obj([("_id", Str("x")), ("a", Int(1))]);
            var q := [("a", Int(1)), ("b", Int(2))];
            DirectHit(d, q) && Consistent(d, q)
  {
    var d: Doc := Obj([("_id", Str("x")), ("a", Int(1))]);
    var q := [("a", Int(1)), ("b", Int(2))];
    assert LeafHit(d, q[0]) by {
      assert LeafHitAt(Entries(d), 1, q[0]);
    }
    assert Member(d, "a") == Some(Int(1)) by {
      assert d.fields[0].0[0] != "a"[0];
      assert d.fields[1..][0] == ("a", Int(1));
    }
    assert Member(d, "b").None? by {
      assert d.fields[0].0[0] != "b"[0] && d.fields[1].0 != "b";
      LookupNone(d.fields, "b");
    }
    assert ConsistentAt(d, q[0]) && ConsistentAt(d, q[1]);
  }

  /** One `performSearch(v, query, p)` keeps the results and the stack sound
      and keeps every recorded consistent document among the results. */
  lemma StepSound(coll: seq<Doc>, q: Query, p: Doc, v: Value,
                  rs: seq<Doc>, st: seq<Pending>, ids: set<Option<Value>>,
                  rs': seq<Doc>, st': seq<Pending>, ids': set<Option<Value>>)
    requires p in coll && (Hit(v, q) ==> Hit(p, q))
    requires SoundResults(coll, q, rs, ids) && SoundStack(coll, q, st)
    requires DistinctIds(coll) ==> Recorded(coll, q, rs, ids)
    requires st' == st + Pushed(p, v, |q|)
    requires ids' == ids + (if DirectHit(v, q) then {IdKey(p)} else {})
    requires rs' == AddRoot(rs, ids, DirectHit(v, q) && Consistent(p, q), p)
    ensures SoundResults(coll, q, rs', ids') && SoundStack(coll, q, st')
    ensures DistinctIds(coll) ==> Recorded(coll, q, rs', ids')
    ensures |rs'| <= |rs| + 1
  {
    forall e | e in st' ensures e.parent in coll && (Hit(e.obj, q) ==> Hit(e.parent, q)) {
      if e !in st {
        FromCopies(|q|, Tag(p, Children(v)), e);
        var i :| 0 <= i < |Children(v)| && Tag(p, Children(v))[i] == e;
        assert e == Pending(p, Children(v)[i]);
      }
    }
    if rs' != rs {
      forall a, b | 0 <= a < b < |rs'| ensures IdKey(rs'[a]) != IdKey(rs'[b]) {
        if b == |rs| {
          assert rs[a] in rs;
        }
      }
    }
    if DistinctIds(coll) {
      forall d | d in coll && IdKey(d) in ids' && Consistent(d, q) ensures d in rs' {
        if IdKey(d) !in ids {
          var a :| 0 <= a < |coll| && coll[a] == d;
          var b :| 0 <= b < |coll| && coll[b] == p;
          assert a == b;
        }
      }
    }
  }

  /** Searching document `j` of the collection moves its hit, if it has one,
      into the recorded ids or onto the stack. */
  lemma VisitDoc(coll: seq<Doc>, q: Query, j: nat,
                 rs: seq<Doc>, st: seq<Pending>, ids: set<Option<Value>>,
                 rs': seq<Doc>, st': seq<Pending>, ids': set<Option<Value>>)
    requires j < |coll|
    requires SoundResults(coll, q, rs, ids) && SoundStack(coll, q, st)
    requires DistinctIds(coll) ==> Recorded(coll, q, rs, ids)
    requires Waiting(coll, q, j, st, ids)
    requires st' == st + Pushed(coll[j], coll[j], |q|)
    requires ids' == ids + (if DirectHit(coll[j], q) then {IdKey(coll[j])} else {})
    requires rs' == AddRoot(rs, ids, DirectHit(coll[j], q) && Consistent(coll[j], q), coll[j])
    ensures SoundResults(coll, q, rs', ids') && SoundStack(coll, q, st')
    ensures DistinctIds(coll) ==> Recorded(coll, q, rs', ids')
    ensures Waiting(coll, q, j + 1, st', ids')
    ensures |rs'| <= |rs| + 1
  {
    var p := coll[j];
    StepSound(coll, q, p, p, rs, st, ids, rs', st', ids');
    forall d | d in coll && Hit(d, q) && IdKey(d) !in ids'
      ensures (exists t :: j + 1 <= t < |coll| && coll[t] == d) || (exists e :: e in st' && e.parent == d && Hit(e.obj, q))
    {
      if exists e :: e in st && e.parent == d && Hit(e.obj, q) {
        var e :| e in st && e.parent == d && Hit(e.obj, q);
        assert e in st';
      } else {
        var t :| j <= t < |coll| && coll[t] == d;
        if t == j {
          PushedHit(p, p, q);
        } else {
          assert j + 1 <= t < |coll| && coll[t] == d;
        }
      }
    }
  }

  /** A value with a hit but no direct one pushes a nested value with a hit. */
  lemma PushedHit(p: Doc, v: Value, q: Query)
    requires Hit(v, q) && !DirectHit(v, q)
    ensures exists e :: e in Pushed(p, v, |q|) && e.parent == p && Hit(e.obj, q)
  {
    HitNeedsQuery(v, q);
    var i :| 0 <= i < |Children(v)| && Hit(Children(v)[i], q);
    var e := Tag(p, Children(v))[i];
    InCopies(|q|, Tag(p, Children(v)), e);
  }

  /** Searching the popped stack entry moves its hit, if it has one, into the
      recorded ids or back onto the stack. */
  lemma VisitTop(coll: seq<Doc>, q: Query, top: Pending,
                 rs: seq<Doc>, st: seq<Pending>, ids: set<Option<Value>>,
                 rs': seq<Doc>, st': seq<Pending>, ids': set<Option<Value>>)
    requires SoundResults(coll, q, rs, ids) && SoundStack(coll, q, st + [top])
    requires DistinctIds(coll) ==> Recorded(coll, q, rs, ids)
    requires Waiting(coll, q, |coll|, st + [top], ids)
    requires st' == st + Pushed(top.parent, top.obj, |q|)
    requires ids' == ids + (if DirectHit(top.obj, q) then {IdKey(top.parent)} else {})
    requires rs' == AddRoot(rs, ids, DirectHit(top.obj, q) && Consistent(top.parent, q), top.parent)
    ensures SoundResults(coll, q, rs', ids') && SoundStack(coll, q, st')
    ensures DistinctIds(coll) ==> Recorded(coll, q, rs', ids')
    ensures Waiting(coll, q, |coll|, st', ids')
    ensures |rs'| <= |rs| + 1
  {
    assert top in st + [top];
    assert SoundStack(coll, q, st) by {
      forall e | e in st ensures e in st + [top] {
      }
    }
    StepSound(coll, q, top.parent, top.obj, rs, st, ids, rs', st', ids');
    forall d | d in coll && Hit(d, q) && IdKey(d) !in ids'
      ensures exists e :: e in st' && e.parent == d && Hit(e.obj, q)
    {
      var e :| e in st + [top] && e.parent == d && Hit(e.obj, q);
      if e in st {
        assert e in st';
      } else {
        assert e == top;
        PushedHit(top.parent, top.obj, q);
      }
    }
  }

  /** With the stack drained and every document searched, every consistent
      document with a hit has been recorded, hence reported. */
  lemma Drained(coll: seq<Doc>, q: Query, rs: seq<Doc>, ids: set<Option<Value>>)
    requires DistinctIds(coll) && Recorded(coll, q, rs, ids)
    requires Waiting(coll, q, |coll|, [], ids)
    ensures forall d :: d in coll && Hit(d, q) && Consistent(d, q) ==> d in rs
  {
  }

  /** Two searches for the same root report it at most once: the second
      adds it only when the first did not. */
  lemma AddRootTwice(rs: seq<Doc>, ids: set<Option<Value>>, a: bool, b: bool, root: Doc)
    ensures AddRoot(AddRoot(rs, ids, a, root), ids + (if a then {IdKey(root)} else {}), b, root)
         == AddRoot(rs, ids, a || b, root)
    ensures ids + (if a then {IdKey(root)} else {}) + (if b then {IdKey(root)} else {})
         == ids + (if a || b then {IdKey(root)} else {})
  {
  }

  /** One more criterion: `v` has a direct hit among `q[..k + 1]` when it
      has one among `q[..k]` or a leaf hit for `q[k]`. */
  lemma DirectHitStep(v: Value, q: Query, k: nat)
    requires k < |q|
    ensures DirectHitBefore(v, q, k + 1) <==> DirectHitBefore(v, q, k) || LeafHit(v, q[k])
  {
  }

  class ObjectSearcher {
    var results: seq<Doc>
    var objects: seq<Pending>
    var resultIds: set<Option<Value>>

    constructor ()
      ensures results == [] && objects == [] && resultIds == {}
    {
      results := [];
      objects := [];
      resultIds := {};
    }

    /** `searchObject(obj, {crit.0: crit.1}, parent)`: reports `parent` for a
        matching leaf of `obj` unless its `_id` was reported before, and
        pushes every nested value of `obj`. */
    method SearchObject(obj: Value, crit: (string, Value), parent: Doc)
      modifies this
      ensures objects == old(objects) + Tag(parent, Children(obj))
      ensures resultIds == old(resultIds) + (if LeafHit(obj, crit) then {IdKey(parent)} else {})
      ensures results == AddRoot(old(results), old(resultIds), LeafHit(obj, crit), parent)
    {
      var es := Entries(obj);
      var i := 0;
      while i < |es|
        invariant 0 <= i <= |es|
        invariant objects == old(objects) + Tag(parent, NonLeaves(es[..i]))
        invariant resultIds == old(resultIds) + (if LeafHitBefore(es, i, crit) then {IdKey(parent)} else {})
        invariant results == AddRoot(old(results), old(resultIds), LeafHitBefore(es, i, crit), parent)
      {
        EntryStep(parent, es, i, crit);
        AddRootTwice(old(results), old(resultIds), LeafHitBefore(es, i, crit), LeafHitAt(es, i, crit), parent);
        var x := es[i].1;
        if !IsLeaf(x) {
          AppendAssoc(old(objects), Tag(parent, NonLeaves(es[..i])), [Pending(parent, x)]);
          objects := objects + [Pending(parent, x)];
        } else if es[i].0 == crit.0 && Loose(crit.1, x) {
          if IdKey(parent) !in resultIds {
            results := results + [parent];
            resultIds := resultIds + {IdKey(parent)};
          }
        }
        i := i + 1;
      }
      NonLeavesWhole(es);
    }

    /** `performSearch(obj, query, parent)`: searches `obj` once per query
        criterion (`SearchCriteria`), then drops from the results every root
        whose top-level field is present and differs from the query value
        (`DropInconsistent`). */
    method PerformSearch(obj: Value, q: Query, parent: Doc)
      requires forall r :: r in results ==> Consistent(r, q)
      modifies this
      ensures objects == old(objects) + Pushed(parent, obj, |q|)
      ensures resultIds == old(resultIds) + (if DirectHit(obj, q) then {IdKey(parent)} else {})
      ensures results == AddRoot(old(results), old(resultIds), DirectHit(obj, q) && Consistent(parent, q), parent)
      ensures forall r :: r in results ==> Consistent(r, q)
    {
      SearchCriteria(obj, q, parent);
      DropInconsistent(q, old(results), parent);
    }

    /** The first loop of `performSearch`: `searchObject(obj, {c: q[c]},
        parent)` for every criterion `c` in turn. */
    method SearchCriteria(obj: Value, q: Query, parent: Doc)
      modifies this
      ensures objects == old(objects) + Pushed(parent, obj, |q|)
      ensures resultIds == old(resultIds) + (if DirectHit(obj, q) then {IdKey(parent)} else {})
      ensures results == AddRoot(old(results), old(resultIds), DirectHit(obj, q), parent)
    {
      var k := 0;
      while k < |q|
        invariant 0 <= k <= |q|
        invariant objects == old(objects) + Copies(k, Tag(parent, Children(obj)))
        invariant resultIds == old(resultIds) + (if DirectHitBefore(obj, q, k) then {IdKey(parent)} else {})
        invariant results == AddRoot(old(results), old(resultIds), DirectHitBefore(obj, q, k), parent)
      {
        ghost var hit := DirectHitBefore(obj, q, k);
        SearchObject(obj, q[k], parent);
        DirectHitStep(obj, q, k);
        AddRootTwice(old(results), old(resultIds), hit, LeafHit(obj, q[k]), parent);
        k := k + 1;
      }
    }

    /** The correction pass of `performSearch`: every result is checked
        field by field against the query, and `results.splice(i, 1)` is
        applied at the current index for each field present with a
        different value. Since the earlier results passed that test already
        and the searches appended at most `parent`, the forward in-place
        splice removes at most that one. */
    method DropInconsistent(q: Query, ghost base: seq<Doc>, parent: Doc)
      requires forall r :: r in base ==> Consistent(r, q)
      requires results == base || results == base + [parent]
      modifies this
      ensures results == if old(results) == base then base else base + (if Consistent(parent, q) then [parent] else [])
      ensures objects == old(objects) && resultIds == old(resultIds)
    {
      ghost var extra := results[|base|..];
      assert results == base + extra;
      assert extra == [] || extra == [parent];
      var i := 0;
      while i < |results|
        invariant 0 <= i <= |base| + 1
        invariant i <= |base| ==> results == base + extra
        invariant i == |base| + 1 ==> extra == [parent] && results == base + (if Consistent(parent, q) then [parent] else [])
        invariant objects == old(objects) && resultIds == old(resultIds)
        decreases |results| + 1 - i
      {
        var result := results[i];
        ghost var here := results;
        assert i < |base| ==> result == base[i] && base[i] in base;
        var f := 0;
        while f < |q|
          invariant 0 <= f <= |q|
          invariant i < |base| ==> results == here
          invariant i == |base| ==> results == base + (if ConsistentBefore(parent, q, f) then [parent] else [])
          invariant objects == old(objects) && resultIds == old(resultIds)
        {
          var field := Member(result, q[f].0);
          if field.Some? {
            assert i < |base| ==> ConsistentAt(result, q[f]);
            if !Same(field.value, q[f].1) {
              assert !ConsistentAt(result, q[f]);
              results := Util.Splice(results, i);
            }
          }
          assert ConsistentBefore(parent, q, f + 1) <==> ConsistentBefore(parent, q, f) && ConsistentAt(parent, q[f]);
          f := f + 1;
        }
        i := i + 1;
      }
    }

    /** `findAllInObject(collection, query, isMulti)` on a fresh searcher:
        every document is searched in order (`SearchDocuments`), then the
        stack is drained (`DrainStack`); in single mode the search stops at
        the first result. */
    method FindAllInObject(collection: seq<Doc>, q: Query, isMulti: bool) returns (r: seq<Doc>)
      requires results == [] && objects == [] && resultIds == {}
      modifies this
      ensures forall x :: x in r ==> x in collection && Hit(x, q) && Consistent(x, q)
      ensures forall a, b :: 0 <= a < b < |r| ==> IdKey(r[a]) != IdKey(r[b])
      ensures !isMulti ==> |r| <= 1
      ensures DistinctIds(collection) && (isMulti || r == []) ==>
        forall d :: d in collection && Hit(d, q) && Consistent(d, q) ==> d in r
    {
      var stopped := SearchDocuments(collection, q, isMulti);
      if stopped {
        return results;
      }
      stopped := DrainStack(collection, q, isMulti);
      if stopped {
        return results;
      }
      if DistinctIds(collection) {
        Drained(collection, q, results, resultIds);
      }
      return results;
    }

    /** The first loop of `findAllInObject`: `performSearch(d, query, d)`
        for each document `d` in order, stopping in single mode at the first
        result. */
    method SearchDocuments(collection: seq<Doc>, q: Query, isMulti: bool) returns (stopped: bool)
      requires results == [] && objects == [] && resultIds == {}
      modifies this
      ensures SoundResults(collection, q, results, resultIds) && SoundStack(collection, q, objects)
      ensures DistinctIds(collection) ==> Recorded(collection, q, results, resultIds)
      ensures stopped ==> !isMulti && |results| == 1
      ensures !stopped ==> Waiting(collection, q, |collection|, objects, resultIds)
      ensures !stopped && !isMulti ==> results == []
    {
      var j := 0;
      while j < |collection|
        invariant 0 <= j <= |collection|
        invariant SoundResults(collection, q, results, resultIds) && SoundStack(collection, q, objects)
        invariant DistinctIds(collection) ==> Recorded(collection, q, results, resultIds)
        invariant Waiting(collection, q, j, objects, resultIds)
        invariant !isMulti ==> results == []
      {
        ghost var rs, st, ids := results, objects, resultIds;
        PerformSearch(collection[j], q, collection[j]);
        VisitDoc(collection, q, j, rs, st, ids, results, objects, resultIds);
        if !isMulti && |results| == 1 {
          return true;
        }
        j := j + 1;
      }
      return false;
    }

    /** The second loop of `findAllInObject`: pops the stack and runs
        `performSearch(_obj, query, parent)` on each entry until it is
        empty, stopping in single mode at the first result. */
    method DrainStack(collection: seq<Doc>, q: Query, isMulti: bool) returns (stopped: bool)
      requires SoundResults(collection, q, results, resultIds) && SoundStack(collection, q, objects)
      requires DistinctIds(collection) ==> Recorded(collection, q, results, resultIds)
      requires Waiting(collection, q, |collection|, objects, resultIds)
      requires !isMulti ==> results == []
      modifies this
      ensures SoundResults(collection, q, results, resultIds)
      ensures DistinctIds(collection) ==> Recorded(collection, q, results, resultIds)
      ensures stopped ==> !isMulti && |results| == 1
      ensures !stopped ==> Waiting(collection, q, |collection|, [], resultIds)
      ensures !stopped && !isMulti ==> results == []
    {
      while |objects| != 0
        invariant SoundResults(collection, q, results, resultIds) && SoundStack(collection, q, objects)
        invariant DistinctIds(collection) ==> Recorded(collection, q, results, resultIds)
        invariant Waiting(collection, q, |collection|, objects, resultIds)
        invariant !isMulti ==> results == []
        decreases StackWeight(objects, |q|)
      {
        var top := objects[|objects| - 1];
        ghost var rs, st, ids := results, objects[..|objects| - 1], resultIds;
        assert objects == st + [top];
        objects := objects[..|objects| - 1];
        PerformSearch(top.obj, q, top.parent);
        VisitTop(collection, q, top, rs, st, ids, results, objects, resultIds);
        VisitWeight(st, top.parent, top.obj, |q|);
        if !isMulti && |results| == 1 {
          return true;
        }
      }
      return false;
    }
  }
}
