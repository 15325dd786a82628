/** The collection engine: one collection is a JSON file holding an array of
    documents, and every operation reads the whole file, works on the array
    and writes the whole array back. The file is modelled as a store that is
    absent, holds text that does not parse, or holds a parsed array; the
    random ids of `uuid.v4` come from an injected supply. */
module Collections {
  import opened Values
  import Util
  import Searcher

  /** The state of the collection's file. */
  datatype Store = Absent | Corrupt | Present(docs: seq<Doc>)

  /** What the read at the top of `find`, `findOne`, `save`, `update` and
      `count` yields: a missing or unparseable file reads as `[]`. */
  function Loaded(st: Store): (r: seq<Doc>)
    ensures !st.Present? ==> r == []
  {
    if st.Present? then st.docs else []
  }

  /** The `{updated, inserted}` record that `update` returns. */
  datatype UpdateCount = UpdateCount(updated: nat, inserted: nat)

  /** `remove` with a query parses the file outside any `try`, so a file
      that does not parse makes it throw. */
  datatype RemoveOutcome = Removed | ParseError

  /** What a deep search in multi mode may return for `q` over `coll`: only
      documents of `coll` that have a matching leaf somewhere and whose
      top-level fields agree with the query, never two with the same `_id`,
      and, when the documents' `_id`s are distinct, all such documents. */
  ghost predicate FoundAll(coll: seq<Doc>, q: Query, r: seq<Doc>) {
    && (forall x :: x in r ==> x in coll && Searcher.Hit(x, q) && Searcher.Consistent(x, q))
    && (forall a, b :: 0 <= a < b < |r| ==> IdKey(r[a]) != IdKey(r[b]))
    && (Searcher.DistinctIds(coll) ==>
          forall d :: d in coll && Searcher.Hit(d, q) && Searcher.Consistent(d, q) ==> d in r)
  }

  /** An empty query object has no criterion, so the deep search finds
      nothing in it. */
  lemma NoHitWithoutQuery(v: Value)
    ensures !Searcher.Hit(v, [])
  {
    if Searcher.Hit(v, []) {
      Searcher.HitNeedsQuery(v, []);
    }
  }

  /** A saved document is its input with `_id` set to the fresh id and every
      other field as the input has it. */
  lemma StampedFields(d: Doc, id: string)
    ensures IdKey(WithId(d, id)) == Some(Str(id))
    ensures forall k :: k != "_id" ==> Member(WithId(d, id), k) == Member(d, k)
  {
  }

  /** Single-mode removal with a hit lowers the count by exactly one, taking
      out the highest-index hit. */
  lemma RemoveOneLowersCount(s: seq<Doc>, q: Query, i: nat)
    requires i < |s| && Util.AnyMatch(s[i], q)
    ensures Util.LastMatch(s, q).Some? && i <= Util.LastMatch(s, q).value
    ensures |Util.RemovedLast(s, q)| == |s| - 1
    ensures Util.RemovedLast(s, q) == s[..Util.LastMatch(s, q).value] + s[Util.LastMatch(s, q).value + 1..]
  {
    Util.LastMatchSpec(s, q);
  }

  class Collection {
    /** The collection's file. */
    var store: Store
    /** The id supply standing in for `v4().replace(/-/g, "")`: the n-th id
        drawn is `ids(n)`. */
    const ids: nat -> string
    /** How many ids have been drawn. */
    var next: nat

    /** The supply never repeats an id. */
    ghost predicate FreshSupply()
      reads this
    {
      forall a: nat, b: nat :: a != b ==> ids(a) != ids(b)
    }

    constructor (file: Store, supply: nat -> string)
      ensures store == file && ids == supply && next == 0
    {
      store := file;
      ids := supply;
      next := 0;
    }

    /** `find(query)`: everything stored when the query is missing or has no
        keys, else a multi-mode deep search; `[]` when the file is missing
        or does not parse. */
    method Find(query: Option<Query>) returns (r: seq<Doc>)
      ensures query.None? || query.value == [] ==> r == Loaded(store)
      ensures query.Some? && query.value != [] ==> FoundAll(Loaded(store), query.value, r)
      ensures !store.Present? ==> r == []
    {
      var collection := Loaded(store);
      if query.None? || query.value == [] {
        return collection;
      }
      var searcher := new Searcher.ObjectSearcher();
      r := searcher.FindAllInObject(collection, query.value, true);
      if |r| > 0 {
        assert r[0] in r;
      }
    }

    /** `findOne(query)`: with a query object, even `{}`, a single-mode
        deep search and its first result; without one, the first stored
        document. */
    method FindOne(query: Option<Query>) returns (r: Option<Doc>)
      ensures query.None? ==> r == if Loaded(store) == [] then None else Some(Loaded(store)[0])
      ensures query.Some? && r.Some? ==>
        r.value in Loaded(store) && Searcher.Hit(r.value, query.value) && Searcher.Consistent(r.value, query.value)
      ensures query.Some? && r.None? && Searcher.DistinctIds(Loaded(store)) ==>
        forall d :: d in Loaded(store) ==> !(Searcher.Hit(d, query.value) && Searcher.Consistent(d, query.value))
      ensures query == Some([]) ==> r.None?
    {
      var collection := Loaded(store);
      if query.Some? {
        var searcher := new Searcher.ObjectSearcher();
        var results := searcher.FindAllInObject(collection, query.value, false);
        if |results| > 0 {
          assert results[0] in results;
          r := Some(results[0]);
          if query.value == [] {
            NoHitWithoutQuery(results[0]);
          }
        } else {
          r := None;
        }
      } else {
        r := if |collection| > 0 then Some(collection[0]) else None;
      }
    }

    /** `save(list)`: walks the list from its last element to its first,
        giving each a fresh `_id` (replacing any it carried), appends the
        results to the stored array in that order, writes the file and
        returns them. */
    method Save(data: seq<Doc>) returns (r: seq<Doc>)
      modifies this
      ensures |r| == |data|
      ensures forall k :: 0 <= k < |r| ==> r[k] == WithId(data[|data| - 1 - k], ids(old(next) + k))
      ensures store == Present(Loaded(old(store)) + r)
      ensures next == old(next) + |data|
      ensures FreshSupply() ==> forall a, b :: 0 <= a < b < |r| ==> IdKey(r[a]) != IdKey(r[b])
    {
      var collection := Loaded(store);
      ghost var before := collection;
      var retCollection := [];
      var i := |data| - 1;
      while i >= 0
        invariant -1 <= i < |data|
        invariant |retCollection| == |data| - 1 - i
        invariant next == old(next) + |retCollection|
        invariant forall k :: 0 <= k < |retCollection| ==>
          retCollection[k] == WithId(data[|data| - 1 - k], ids(old(next) + k))
        invariant collection == before + retCollection
      {
        var newData := WithId(data[i], ids(next));
        next := next + 1;
        collection := collection + [newData];
        retCollection := retCollection + [newData];
        i := i - 1;
      }
      store := Present(collection);
      r := retCollection;
      if FreshSupply() {
        forall a, b | 0 <= a < b < |r| ensures IdKey(r[a]) != IdKey(r[b]) {
          StampedFields(data[|data| - 1 - a], ids(old(next) + a));
          StampedFields(data[|data| - 1 - b], ids(old(next) + b));
        }
      }
    }

    /** `save(doc)`: one document with a fresh `_id`, appended and returned. */
    method SaveOne(data: Doc) returns (r: Doc)
      modifies this
      ensures r == WithId(data, ids(old(next)))
      ensures store == Present(Loaded(old(store)) + [r])
      ensures |Loaded(store)| == |Loaded(old(store))| + 1
      ensures next == old(next) + 1
    {
      var collection := Loaded(store);
      r := WithId(data, ids(next));
      next := next + 1;
      collection := collection + [r];
      store := Present(collection);
    }

    /** `update(query, data, {multi, upsert})`. With a shallow hit the
        documents are merged in place and `updated` is the length of
        `finder(collection, query, true)` (one per matching key) in multi
        mode, and 1 in single mode. Without a hit, `upsert` appends `data`
        with a fresh `_id`. The file is written in every case. */
    method Update(query: Query, data: Doc, multi: bool, upsert: bool) returns (ret: UpdateCount)
      modifies this
      ensures var s := Loaded(old(store));
        store == Present(
          if Util.FinderAll(s, query) != [] then
            (if multi then Util.UpdatedAll(s, query, data) else Util.UpdatedLast(s, query, data))
          else if upsert then s + [WithId(data, ids(old(next)))]
          else s)
      ensures var s := Loaded(old(store));
        ret == if Util.FinderAll(s, query) != [] then UpdateCount(if multi then |Util.FinderAll(s, query)| else 1, 0)
               else if upsert then UpdateCount(0, 1)
               else UpdateCount(0, 0)
      ensures next == old(next) + (if Util.FinderAll(Loaded(old(store)), query) == [] && upsert then 1 else 0)
      ensures Util.FinderAll(Loaded(old(store)), query) != [] ==>
        |Loaded(store)| == |Loaded(old(store))| && ret.inserted == 0
    {
      var collection := Loaded(store);
      var records := Util.Finder(collection, query, true);
      if |records| > 0 {
        var a := new Doc[|collection|](k requires 0 <= k < |collection| => collection[k]);
        assert a[..] == collection;
        Util.UpdateFiltered(a, query, data, multi);
        Util.UpdatedAllAt(collection, query, data);
        Util.UpdatedLastAt(collection, query, data);
        collection := a[..];
        ret := UpdateCount(if multi then |records| else 1, 0);
      } else if upsert {
        var d := WithId(data, ids(next));
        next := next + 1;
        collection := collection + [d];
        ret := UpdateCount(0, 1);
      } else {
        ret := UpdateCount(0, 0);
      }
      store := Present(collection);
    }

    /** `remove(query, multi)`, `multi` defaulting to true. Nothing happens
        when the file is missing; without a query the file is deleted;
        with one the stored array is filtered by `removeFiltered` and
        written back, and a file that does not parse makes it fail. */
    method Remove(query: Option<Query>, multi: bool) returns (outcome: RemoveOutcome)
      modifies this
      ensures old(store).Absent? ==> store == old(store) && outcome == Removed
      ensures old(store).Corrupt? && query.Some? ==> store == old(store) && outcome == ParseError
      ensures !old(store).Absent? && query.None? ==> store == Absent && outcome == Removed
      ensures old(store).Present? && query.Some? ==>
        && outcome == Removed
        && store == Present(if multi then Util.RemovedAll(old(store).docs, query.value)
                            else Util.RemovedLast(old(store).docs, query.value))
      ensures next == old(next)
    {
      if store.Absent? {
        return Removed;
      }
      if query.Some? {
        if store.Corrupt? {
          return ParseError;
        }
        var collection := Util.RemoveFiltered(store.docs, query.value, multi);
        store := Present(collection);
      } else {
        store := Absent;
      }
      outcome := Removed;
    }

    /** `count()`: the number of stored documents, 0 when the file is
        missing or does not parse. */
    method Count() returns (n: nat)
      ensures store.Present? ==> n == |store.docs|
      ensures !store.Present? ==> n == 0
    {
      var collection := Loaded(store);
      n := |collection|;
    }
  }
}
