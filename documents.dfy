/** Documents owned by a user (videos, comments, tweets, playlists): each has an id, an owning
    user and a creation time, which the store assigns. This module holds what the handlers do
    alike on all of them: look a document up by id, list newest first, and the ownership guard. */
module Documents {
  import opened Results
  import opened Ordering
  import opened Query

  /** An ObjectId in its string form, as it arrives in a request and as `toString()` gives it. */
  type Id = string

  datatype Owned<T> = Owned(id: Id, owner: Id, createdAt: nat, fields: T)

  /** findById: the position of the document with this id. */
  function Find<T>(docs: seq<Owned<T>>, id: Id): (r: Option<nat>)
    ensures r.None? <==> forall k :: 0 <= k < |docs| ==> docs[k].id != id
    ensures r.Some? ==> r.value < |docs| && docs[r.value].id == id
  {
    if docs == [] then None
    else if docs[0].id == id then Some(0)
    else
      var r := Find(docs[1..], id);
      if r.None? then None else Some(r.value + 1)
  }

  /** No two documents of a collection share an id. */
  ghost predicate UniqueIds<T>(docs: seq<Owned<T>>) {
    forall i, j :: 0 <= i < |docs| && 0 <= j < |docs| && docs[i].id == docs[j].id ==> i == j
  }

  /** Inserting a document whose id is new keeps ids unique. */
  lemma UniqueAfterAppend<T>(docs: seq<Owned<T>>, d: Owned<T>)
    requires UniqueIds(docs) && Find(docs, d.id).None?
    ensures UniqueIds(docs + [d])
  {
  }

  /** Updating a document in place, keeping its id, keeps ids unique. */
  lemma UniqueAfterReplace<T>(docs: seq<Owned<T>>, k: nat, d: Owned<T>)
    requires UniqueIds(docs) && k < |docs| && d.id == docs[k].id
    ensures UniqueIds(docs[k := d])
  {
  }

  /** Deleting a document keeps ids unique. */
  lemma UniqueAfterRemove<T>(docs: seq<Owned<T>>, k: nat)
    requires UniqueIds(docs) && k < |docs|
    ensures UniqueIds(RemoveAt(docs, k))
  {
    var r := RemoveAt(docs, k);
    forall i, j | 0 <= i < |r| && 0 <= j < |r| && r[i].id == r[j].id ensures i == j {
      var i' := if i < k then i else i + 1;
      var j' := if j < k then j else j + 1;
      assert docs[i'].id == docs[j'].id;
    }
  }

  /** A populated reference: the referenced document, or null when it no longer exists. */
  function Lookup<T>(docs: seq<Owned<T>>, id: Id): (r: Option<Owned<T>>)
    ensures r.Some? ==> r.value in docs && r.value.id == id
    ensures r.None? ==> forall d :: d in docs ==> d.id != id
  {
    match Find(docs, id)
    case Some(k) => Some(docs[k])
    case None => None
  }

  /** `.sort({ createdAt: -1 })`: a permutation of the documents, newest first. */
  function NewestFirst<T>(docs: seq<Owned<T>>): (r: seq<Owned<T>>)
    ensures multiset(r) == multiset(docs)
    ensures forall i, j :: 0 <= i < j < |r| ==> r[j].createdAt <= r[i].createdAt
  {
    var r := SortBy(docs, (d: Owned<T>) => Date(d.createdAt), false);
    assert forall i, j :: 0 <= i < j < |r| ==> InOrder(Date(r[i].createdAt), Date(r[j].createdAt), false);
    r
  }

  /** `.sort({ createdAt: -1 }).skip((page - 1) * limit).limit(limit)`: one page of the
      documents, newest first, cut from the whole newest-first listing; 500 when the skip is
      negative. */
  function NewestPage<T(!new)>(docs: seq<Owned<T>>, page: int, limit: int): (r: Result<seq<Owned<T>>>)
    ensures r.Err? <==> (page - 1) * limit < 0
    ensures r.Err? ==> r.code == ServerError
    ensures r.Ok? ==> r.value == Window(NewestFirst(docs), (page - 1) * limit, limit)
    ensures r.Ok? ==> forall d :: d in r.value ==> d in docs
    ensures r.Ok? ==> forall i, j :: 0 <= i < j < |r.value| ==> r.value[j].createdAt <= r.value[i].createdAt
    ensures r.Ok? && limit != 0 ==> |r.value| <= Abs(limit)
    ensures r.Ok? && limit == 0 ==> multiset(r.value) == multiset(docs)
  {
    var all := NewestFirst(docs);
    var r := Page(all, page, limit);
    assert r.Ok? ==> forall d :: d in r.value ==> d in multiset(all);
    r
  }

  /** `!id || !isValidObjectId(id)`: a missing (empty) or ill-formed id, answered with 400. */
  predicate Malformed(isValidObjectId: Id -> bool, raw: Id)
    ensures raw == "" ==> Malformed(isValidObjectId, raw)
    ensures !Malformed(isValidObjectId, raw) ==> |raw| > 0 && isValidObjectId(raw)
  {
    raw == "" || !isValidObjectId(raw)
  }

  /** The chain every owner-only handler runs on a document: authenticate (401), validate the
      id (400), find the document (404), compare its owner with the caller (403). On success,
      the position of a document with that id which the caller owns. */
  function OwnerGuard<T>(isValidObjectId: Id -> bool, caller: Option<Id>, raw: Id, docs: seq<Owned<T>>): (r: Result<nat>)
    ensures r.Ok? ==> r.value < |docs| && docs[r.value].id == raw && caller == Some(docs[r.value].owner)
    ensures r == Err(Unauthenticated) <==> caller.None?
    ensures r == Err(BadRequest) <==> caller.Some? && Malformed(isValidObjectId, raw)
    ensures r == Err(NotFound) <==>
      caller.Some? && !Malformed(isValidObjectId, raw) && forall k :: 0 <= k < |docs| ==> docs[k].id != raw
    ensures r == Err(Forbidden) <==>
      caller.Some? && !Malformed(isValidObjectId, raw) && Find(docs, raw).Some?
      && docs[Find(docs, raw).value].owner != caller.value
    ensures r.Err? ==> r.code in {Unauthenticated, BadRequest, NotFound, Forbidden}
  {
    if caller.None? then Err(Unauthenticated)
    else if Malformed(isValidObjectId, raw) then Err(BadRequest)
    else match Find(docs, raw)
      case None => Err(NotFound)
      case Some(k) => if docs[k].owner == caller.value then Ok(k) else Err(Forbidden)
  }

  /** In a collection with unique ids, findById finds the one document that has the id. */
  lemma FindUnique<T>(docs: seq<Owned<T>>, k: nat)
    requires UniqueIds(docs) && k < |docs|
    ensures Find(docs, docs[k].id) == Some(k)
  {
  }

  /** A non-owner never passes the guard, whatever the document. */
  lemma GuardRefusesNonOwner<T>(isValidObjectId: Id -> bool, caller: Id, docs: seq<Owned<T>>, k: nat)
    requires UniqueIds(docs) && k < |docs| && docs[k].owner != caller
    ensures OwnerGuard(isValidObjectId, Some(caller), docs[k].id, docs).Err?
  {
    FindUnique(docs, k);
  }
}
