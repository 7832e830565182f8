/**
 The in-memory document store `DocumentManager`: a table from document id to
 document with insert-or-replace (`Save`), point lookup (`FindById`) and a
 linear filter (`Search`). The table is a map; a sequence of its keys in
 insertion order lets `Search` return a sequence, although no order is
 promised to callers.
 */
module Store {
  import opened Documents

  /** Every stored document carries the key it is stored under as its id. */
  ghost predicate KeyedById(docs: map<string, Document>)
  {
    forall k :: k in docs ==> docs[k].id == Some(k)
  }

  /** No element occurs twice in the sequence. */
  ghost predicate Distinct<T>(s: seq<T>)
  {
    forall i, j :: 0 <= i < j < |s| ==> s[i] != s[j]
  }

  /** The stored documents under `ids`, in that order, that satisfy `req`. */
  function Filter(req: SearchRequest, docs: map<string, Document>, ids: seq<string>): (r: seq<Document>)
    requires forall k :: k in ids ==> k in docs
    ensures |r| <= |ids|
    ensures forall d :: d in r ==> Matches(req, d)
  {
    if ids == [] then []
    else
      (if Matches(req, docs[ids[0]]) then [docs[ids[0]]] else [])
      + Filter(req, docs, ids[1..])
  }

  /** Every document `Filter` returns satisfies the request and is the one
      stored under its own id, which is one of `ids`. */
  lemma {:induction false} FilterSound(req: SearchRequest, docs: map<string, Document>, ids: seq<string>)
    requires forall k :: k in ids ==> k in docs
    requires KeyedById(docs)
    ensures forall d :: d in Filter(req, docs, ids) ==>
              && d.id.Some? && d.id.value in ids && docs[d.id.value] == d
              && Matches(req, d)
  {
    if ids != [] {
      FilterSound(req, docs, ids[1..]);
    }
  }

  /** Every document stored under one of `ids` that satisfies the request is
      returned by `Filter`. */
  lemma {:induction false} FilterComplete(req: SearchRequest, docs: map<string, Document>, ids: seq<string>)
    requires forall k :: k in ids ==> k in docs
    ensures forall k :: k in ids && Matches(req, docs[k]) ==> docs[k] in Filter(req, docs, ids)
  {
    if ids != [] {
      FilterComplete(req, docs, ids[1..]);
      forall k | k in ids && Matches(req, docs[k])
        ensures docs[k] in Filter(req, docs, ids)
      {
        if k != ids[0] {
          assert k in ids[1..];
        }
      }
    }
  }

  /** Over distinct keys, `Filter` returns no document twice. */
  lemma {:induction false} FilterDistinct(req: SearchRequest, docs: map<string, Document>, ids: seq<string>)
    requires forall k :: k in ids ==> k in docs
    requires KeyedById(docs) && Distinct(ids)
    ensures Distinct(Filter(req, docs, ids))
  {
    if ids != [] {
      var tail := ids[1..];
      assert Distinct(tail) by {
        forall i, j | 0 <= i < j < |tail| ensures tail[i] != tail[j] {
          assert tail[i] == ids[i + 1] && tail[j] == ids[j + 1];
        }
      }
      FilterDistinct(req, docs, tail);
      FilterSound(req, docs, tail);
      var rest := Filter(req, docs, tail);
      assert ids[0] !in tail by {
        forall i | 0 <= i < |tail| ensures tail[i] != ids[0] {
          assert tail[i] == ids[i + 1];
        }
      }
      assert docs[ids[0]] !in rest;
      var r := Filter(req, docs, ids);
      var head := if Matches(req, docs[ids[0]]) then [docs[ids[0]]] else [];
      assert r == head + rest;
      forall i, j | 0 <= i < j < |r| ensures r[i] != r[j] {
        if i < |head| {
          assert r[i] == docs[ids[0]];
          assert r[j] == rest[j - |head|] && rest[j - |head|] in rest;
        } else {
          assert r[i] == rest[i - |head|] && r[j] == rest[j - |head|];
        }
      }
    }
  }

  /** The keys among `ids` whose documents satisfy the request. */
  ghost function MatchingKeys(req: SearchRequest, docs: map<string, Document>, ids: seq<string>): set<string>
    requires forall k :: k in ids ==> k in docs
  {
    set k | k in ids && Matches(req, docs[k])
  }

  /** Over distinct keys, `Filter` returns one document per matching key. */
  lemma {:induction false} FilterCount(req: SearchRequest, docs: map<string, Document>, ids: seq<string>)
    requires forall k :: k in ids ==> k in docs
    requires Distinct(ids)
    ensures |Filter(req, docs, ids)| == |MatchingKeys(req, docs, ids)|
  {
    if ids == [] {
      assert MatchingKeys(req, docs, ids) == {};
    } else {
      var tail := ids[1..];
      assert Distinct(tail) by {
        forall i, j | 0 <= i < j < |tail| ensures tail[i] != tail[j] {
          assert tail[i] == ids[i + 1] && tail[j] == ids[j + 1];
        }
      }
      assert ids[0] !in tail by {
        forall i | 0 <= i < |tail| ensures tail[i] != ids[0] {
          assert tail[i] == ids[i + 1];
        }
      }
      FilterCount(req, docs, tail);
      var head := if Matches(req, docs[ids[0]]) then {ids[0]} else {};
      assert MatchingKeys(req, docs, ids) == head + MatchingKeys(req, docs, tail);
      assert head !! MatchingKeys(req, docs, tail);
    }
  }

  /** The length of the longest of `ids`, 0 when there are none. */
  function MaxLength(ids: seq<string>): (n: nat)
    ensures forall k :: k in ids ==> |k| <= n
    ensures ids == [] ==> n == 0
    ensures ids != [] ==> exists k :: k in ids && |k| == n
  {
    if ids == [] then 0
    else
      var m := MaxLength(ids[1..]);
      if |ids[0]| >= m then |ids[0]|
      else
        assert exists k :: k in ids && |k| == m by {
          var w :| w in ids[1..] && |w| == m;
          assert w in ids;
        }
        m
  }

  /** A non-empty id that is none of `ids`: one character longer than the
      longest of them. It stands in for a random UUID; callers rely only on
      it being new and non-empty. */
  function UnusedId(ids: seq<string>): (id: string)
    ensures id !in ids && id != ""
  {
    seq(MaxLength(ids) + 1, _ => 'x')
  }

  /** The document carries an id the store uses as it is: present and
      non-empty. */
  predicate HasId(d: Document)
  {
    d.id.Some? && d.id.value != ""
  }

  class DocumentManager {
    /** The stored documents by id. */
    var docs: map<string, Document>
    /** The stored ids in the order they were first saved. */
    var order: seq<string>

    /** The store's invariant: `order` lists each stored id exactly once,
        no stored id is empty, and each document is stored under its own id. */
    ghost predicate Valid()
      reads this
    {
      && (forall k :: k in docs <==> k in order)
      && "" !in docs
      && Distinct(order)
      && KeyedById(docs)
    }

    /** The ids of the stored documents that satisfy `req`. */
    ghost function MatchingIds(req: SearchRequest): set<string>
      reads this
    {
      set k | k in docs && Matches(req, docs[k])
    }

    /** A new store is empty. */
    constructor ()
      ensures Valid()
      ensures docs == map[] && order == []
    {
      docs := map[];
      order := [];
    }

    /** Insert or replace. A document with a non-empty id is stored under
        that id, replacing whatever was stored there completely; a document
        whose id is absent or empty is given an unused, non-empty id first.
        The stored document is returned. */
    method Save(d: Document) returns (saved: Document)
      requires Valid()
      modifies this
      ensures Valid()
      ensures saved.id.Some?
      ensures HasId(d) ==> saved == d
      ensures !HasId(d) ==>
                && saved == d.(id := saved.id)
                && saved.id.value != ""
                && saved.id.value !in old(docs)
      ensures docs == old(docs)[saved.id.value := saved]
      ensures order == if saved.id.value in old(docs) then old(order)
                       else old(order) + [saved.id.value]
    {
      var key: string;
      if HasId(d) {
        key := d.id.value;
        saved := d;
      } else {
        key := UnusedId(order);
        saved := d.(id := Some(key));
      }
      if key !in docs {
        order := order + [key];
      }
      docs := docs[key := saved];
    }

    /** The document stored under `id`, if there is one; a missing id is a
        normal, empty answer. */
    function FindById(id: string): (r: Option<Document>)
      reads this
      requires Valid()
      ensures r.Some? <==> id in docs
      ensures r.Some? ==> r.value == docs[id] && r.value.id == Some(id)
    {
      if id in docs then Some(docs[id]) else None
    }

    /** The stored documents that satisfy every criterion of `req`: each
        returned document is stored and matches, each stored document that
        matches is returned, none is returned twice, so there are as many as
        there are matching ids. The order is not part of the promise. */
    function Search(req: SearchRequest): (r: seq<Document>)
      reads this
      requires Valid()
      ensures forall d :: d in r ==>
                && d.id.Some? && d.id.value in docs && docs[d.id.value] == d
                && Matches(req, d)
      ensures forall k :: k in docs && Matches(req, docs[k]) ==> docs[k] in r
      ensures Distinct(r)
      ensures |r| == |MatchingIds(req)|
    {
      FilterSound(req, docs, order);
      FilterComplete(req, docs, order);
      FilterDistinct(req, docs, order);
      FilterCount(req, docs, order);
      assert MatchingKeys(req, docs, order) == MatchingIds(req);
      Filter(req, docs, order)
    }
  }

  /** Saving and then looking up the id of the saved document finds exactly
      that document, and an explicit id is the one looked up. */
  method SaveThenFind(m: DocumentManager, d: Document) returns (saved: Document, found: Option<Document>)
    requires m.Valid()
    modifies m
    ensures m.Valid()
    ensures found == Some(saved)
    ensures HasId(d) ==> found == Some(d) && found == m.FindById(d.id.value)
    ensures !HasId(d) ==> saved.id.Some? && saved.id.value !in old(m.docs)
    ensures forall k :: k in old(m.docs) && Some(k) != saved.id ==> m.FindById(k) == Some(old(m.docs)[k])
  {
    saved := m.Save(d);
    found := m.FindById(saved.id.value);
  }

  /** A request with no criteria set returns every stored document. */
  lemma SearchWithoutCriteriaReturnsAll(m: DocumentManager)
    requires m.Valid()
    ensures forall k :: k in m.docs ==> m.docs[k] in m.Search(NO_CRITERIA)
    ensures |m.Search(NO_CRITERIA)| == |m.docs|
  {
    assert m.MatchingIds(NO_CRITERIA) == m.docs.Keys;
  }
}
