/**
 * The donor handlers over the donor collection, a sequence of documents in
 * the order they were saved. None of these handlers looks at the session.
 *
 * A stored document's status is the string that was last written to it. A
 * new document is validated when it is saved, so it can only carry one of
 * the three status names; the status update, as the controller issues it,
 * is not validated, and writes whatever string the request carries.
 * `UpdateAsWritten` models that update and `AsWrittenStoresUnknownStatus`
 * shows it storing a status outside the three. The handler
 * `DonorApi.UpdateDonorStatus` is the corrected one: it validates the new
 * status first, as an update run with validators would, so it answers 500
 * where the code as written stores the string and answers 200 (or 404).
 */
module DonorController {
  import opened Wrappers
  import opened Schema
  import opened Collections
  import opened Http

  /** A stored donor document. */
  datatype DonorDoc = DonorDoc(id: Id, fields: InsertDonor, status: string, appliedAt: nat)

  /** The body of POST /api/donors; every field it carries is copied into the new document. */
  datatype DonorRequest = DonorRequest(
    name: Option<string>, email: Option<string>, phone: Option<string>, bloodType: Option<string>,
    age: Option<real>, address: Option<string>, status: Option<string>, appliedAt: Option<nat>)

  datatype Body =
    | Message(message: string)
    | Saved(message: string, donor: DonorDoc)
    | DonorList(donors: seq<DonorDoc>)
    | ValidationFailed   // { message: error.message }, the text comes from the database layer

  function DocId(d: DonorDoc): Id
  {
    d.id
  }

  function DocAppliedAt(d: DonorDoc): int
  {
    d.appliedAt
  }

  /** What saving a new document checks: the required fields, and the status against its enum. */
  predicate SaveAccepts(req: DonorRequest)
  {
    && Provided(req.name) && Provided(req.email) && Provided(req.phone)
    && Provided(req.bloodType) && req.age.Some? && Provided(req.address)
    && (req.status.Some? ==> IsStatusName(req.status.value))
  }

  /** The document a valid request becomes: its fields, status `pending` and the current time unless it gives others. */
  function NewDoc(id: Id, req: DonorRequest, now: nat): DonorDoc
    requires SaveAccepts(req)
  {
    DonorDoc(
      id,
      InsertDonor(req.name.value, req.email.value, req.phone.value, req.bloodType.value,
                  req.age.value, req.address.value),
      if req.status.Some? then req.status.value else StatusName(DefaultStatus),
      if req.appliedAt.Some? then req.appliedAt.value else now)
  }

  /** Every document's status is one of the three names. */
  ghost predicate KnownStatuses(docs: seq<DonorDoc>)
  {
    forall i :: 0 <= i < |docs| ==> IsStatusName(docs[i].status)
  }

  /** Position of the document with this id, if any. */
  function IndexOf(docs: seq<DonorDoc>, id: Id): (r: Option<nat>)
    ensures r.Some? ==> r.value < |docs| && docs[r.value].id == id
    ensures r.None? <==> forall i :: 0 <= i < |docs| ==> docs[i].id != id
  {
    FirstWith(docs, DocId, id)
  }

  /** The update as issued: the request's status is written unchecked. None when no document has the id. */
  function UpdateAsWritten(docs: seq<DonorDoc>, id: Id, status: string): (r: Option<seq<DonorDoc>>)
    ensures r.None? <==> forall i :: 0 <= i < |docs| ==> docs[i].id != id
    ensures r.Some? ==> var i := IndexOf(docs, id).value;
                        r.value == docs[i := docs[i].(status := status)]
  {
    match IndexOf(docs, id)
    case None => None
    case Some(i) => Some(docs[i := docs[i].(status := status)])
  }

  /** As written, a status update stores a string that is none of the three statuses. */
  lemma AsWrittenStoresUnknownStatus()
    ensures var docs := [DonorDoc(0, InsertDonor("Jane Doe", "jane@x.com", "555-1234", "O-", 30.0, "1 Main St"),
                                  "pending", 0)];
            && KnownStatuses(docs)
            && UpdateAsWritten(docs, 0, "banana").Some?
            && !KnownStatuses(UpdateAsWritten(docs, 0, "banana").value)
  {
    var docs := [DonorDoc(0, InsertDonor("Jane Doe", "jane@x.com", "555-1234", "O-", 30.0, "1 Main St"),
                          "pending", 0)];
    assert IsStatusName(docs[0].status);
    var after := UpdateAsWritten(docs, 0, "banana").value;
    assert after[0].status == "banana";
    assert !IsStatusName("banana") by {
      assert "banana" != "pending" && "banana" != "approved" && "banana" != "rejected";
    }
  }

  datatype StatusUpdate = InvalidStatus | NoSuchDonor | Applied(docs: seq<DonorDoc>, donor: DonorDoc)

  /**
   * The status update with the new status validated first: an unknown
   * status changes nothing, an unknown id changes nothing, and otherwise only
   * the status of the document with that id changes. Updating a collection
   * whose statuses are all known keeps them all known.
   */
  function CheckedStatusUpdate(docs: seq<DonorDoc>, id: Id, status: string): (r: StatusUpdate)
    ensures r == InvalidStatus <==> !IsStatusName(status)
    ensures r == NoSuchDonor <==> IsStatusName(status) && forall i :: 0 <= i < |docs| ==> docs[i].id != id
    ensures r.Applied? ==>
              exists i :: 0 <= i < |docs| && docs[i].id == id
                          && r.donor == docs[i].(status := status)
                          && r.docs == docs[i := r.donor]
    ensures r.Applied? && KnownStatuses(docs) ==> KnownStatuses(r.docs)
  {
    if !IsStatusName(status) then InvalidStatus
    else
      match UpdateAsWritten(docs, id, status)
      case None => NoSuchDonor
      case Some(after) =>
        var i := IndexOf(docs, id).value;
        Applied(after, after[i])
  }

  /** The collection without the document at `i`. */
  function RemoveAt(docs: seq<DonorDoc>, i: nat): (r: seq<DonorDoc>)
    requires i < |docs|
    ensures |r| == |docs| - 1
    ensures forall d :: d in r <==> exists j :: 0 <= j < |docs| && j != i && docs[j] == d
  {
    assert docs == docs[..i] + [docs[i]] + docs[i + 1..];
    docs[..i] + docs[i + 1..]
  }

  /**
   * Removing the document at `i` from a collection with distinct ids keeps
   * the ids distinct and the statuses as known as they were, and leaves
   * exactly the documents with another id.
   */
  lemma {:induction false} RemoveAtById(docs: seq<DonorDoc>, i: nat)
    requires i < |docs| && DistinctKeys(docs, DocId)
    ensures DistinctKeys(RemoveAt(docs, i), DocId)
    ensures KnownStatuses(docs) ==> KnownStatuses(RemoveAt(docs, i))
    ensures forall d :: d in RemoveAt(docs, i) <==> d in docs && d.id != docs[i].id
    ensures forall k :: 0 <= k < |RemoveAt(docs, i)| ==> RemoveAt(docs, i)[k] in docs
  {
    var rest := RemoveAt(docs, i);
    assert forall k :: 0 <= k < |rest| ==> rest[k] == docs[if k < i then k else k + 1];
    forall k | 0 <= k < |rest|
      ensures rest[k].id != docs[i].id
    {
      var j := if k < i then k else k + 1;
      assert docs[j].id != docs[i].id;
    }
    forall a, b | 0 <= a < b < |rest|
      ensures rest[a].id != rest[b].id
    {
      var ja, jb := if a < i then a else a + 1, if b < i then b else b + 1;
      assert docs[ja].id != docs[jb].id;
    }
    forall d | d in docs && d.id != docs[i].id
      ensures d in rest
    {
      var j :| 0 <= j < |docs| && docs[j] == d;
    }
  }

  /** Once the document with an id is removed, no document has that id, so a second delete finds nothing. */
  lemma RemovedIdIsGone(docs: seq<DonorDoc>, id: Id)
    requires DistinctKeys(docs, DocId)
    requires IndexOf(docs, id).Some?
    ensures IndexOf(RemoveAt(docs, IndexOf(docs, id).value), id).None?
  {
    var i := IndexOf(docs, id).value;
    RemoveAtById(docs, i);
    var rest := RemoveAt(docs, i);
    assert forall k :: 0 <= k < |rest| ==> rest[k] in rest;
  }

  class DonorApi {
    var donors: seq<DonorDoc>
    /** Every id below this one has been handed out. */
    var nextId: Id

    ghost predicate Valid()
      reads this
    {
      && DistinctKeys(donors, DocId)
      && (forall i :: 0 <= i < |donors| ==> donors[i].id < nextId)
      && KnownStatuses(donors)
    }

    constructor ()
      ensures Valid() && donors == []
    {
      donors, nextId := [], 0;
    }

    /**
     * POST /api/donors. A request that saving refuses answers 500 and stores
     * nothing; otherwise exactly one document is appended and returned with
     * 201. No session is consulted.
     */
    method AddDonor(req: DonorRequest, now: nat) returns (res: Response<Body>)
      requires Valid()
      modifies this
      ensures Valid()
      ensures !SaveAccepts(req) ==> res == Response(InternalError, ValidationFailed) && donors == old(donors)
      ensures SaveAccepts(req) ==>
                && res.status == Created && res.body.Saved?
                && res.body.message == "Donor added successfully"
                && res.body.donor == NewDoc(res.body.donor.id, req, now)
                && donors == old(donors) + [res.body.donor]
                && forall i :: 0 <= i < |old(donors)| ==> old(donors)[i].id != res.body.donor.id
      ensures SaveAccepts(req) && req.status.None? ==> res.body.donor.status == "pending"
    {
      if !SaveAccepts(req) {
        res := Response(InternalError, ValidationFailed);
        return;
      }
      var donor := NewDoc(nextId, req, now);
      donors := donors + [donor];
      nextId := nextId + 1;
      res := Response(Created, Saved("Donor added successfully", donor));
    }

    /** GET /api/donors: every document, newest application first, and nothing changes. */
    method GetDonors() returns (res: Response<Body>)
      requires Valid()
      ensures res.status == Ok && res.body.DonorList?
      ensures multiset(res.body.donors) == multiset(donors)
      ensures forall i, j :: 0 <= i < j < |res.body.donors| ==>
                res.body.donors[i].appliedAt >= res.body.donors[j].appliedAt
    {
      res := Response(Ok, DonorList(SortNewestFirst(donors, DocAppliedAt)));
    }

    /**
     * PUT /api/donors/:id/status, corrected to validate the new status (see
     * `UpdateAsWritten` for the update as the controller issues it). An unknown
     * status answers 500 and an unknown id 404, both changing nothing;
     * otherwise only that document's status becomes the requested one and
     * the updated document comes back with 200.
     */
    method UpdateDonorStatus(id: Id, status: string) returns (res: Response<Body>)
      requires Valid()
      modifies this
      ensures Valid()
      ensures !IsStatusName(status) ==> res == Response(InternalError, ValidationFailed) && donors == old(donors)
      ensures IsStatusName(status) && IndexOf(old(donors), id).None? ==>
                res == Response(NotFound, Message("Donor not found")) && donors == old(donors)
      ensures IsStatusName(status) && IndexOf(old(donors), id).Some? ==>
                var i := IndexOf(old(donors), id).value;
                && donors == old(donors)[i := old(donors)[i].(status := status)]
                && res == Response(Ok, Saved("Status updated successfully", donors[i]))
    {
      match CheckedStatusUpdate(donors, id, status)
      case InvalidStatus =>
        res := Response(InternalError, ValidationFailed);
      case NoSuchDonor =>
        res := Response(NotFound, Message("Donor not found"));
      case Applied(after, donor) =>
        donors := after;
        res := Response(Ok, Saved("Status updated successfully", donor));
    }

    /** DELETE /api/donors/:id: removes exactly that document (200), or answers 404 changing nothing. */
    method DeleteDonor(id: Id) returns (res: Response<Body>)
      requires Valid()
      modifies this
      ensures Valid()
      ensures IndexOf(old(donors), id).None? ==>
                res == Response(NotFound, Message("Donor not found")) && donors == old(donors)
      ensures IndexOf(old(donors), id).Some? ==>
                && res == Response(Ok, Message("Donor deleted successfully"))
                && donors == RemoveAt(old(donors), IndexOf(old(donors), id).value)
                && forall d :: d in donors <==> d in old(donors) && d.id != id
    {
      match IndexOf(donors, id)
      case None =>
        res := Response(NotFound, Message("Donor not found"));
      case Some(i) =>
        RemoveAtById(donors, i);
        var after := RemoveAt(donors, i);
        donors := after;
        res := Response(Ok, Message("Donor deleted successfully"));
    }
  }

  /** Deleting the same stored donor twice answers 200 and then 404. */
  method DeleteTwice(api: DonorApi, id: Id) returns (first: Response<Body>, second: Response<Body>)
    requires api.Valid() && IndexOf(api.donors, id).Some?
    modifies api
    ensures first.status == Ok && second == Response(NotFound, Message("Donor not found"))
  {
    RemovedIdIsGone(api.donors, id);
    first := api.DeleteDonor(id);
    second := api.DeleteDonor(id);
  }

  /**
   * A new application is stored pending; once approved, the listing shows
   * the document with its id approved, and no other document with that id.
   */
  method SubmitThenApprove(api: DonorApi, req: DonorRequest, now: nat)
    returns (added: Response<Body>, id: Id, listed: seq<DonorDoc>)
    requires api.Valid() && SaveAccepts(req) && req.status.None?
    modifies api
    ensures added.status == Created && added.body.Saved?
    ensures added.body.donor.id == id && added.body.donor.status == "pending"
    ensures exists d :: d in listed && d.id == id
    ensures forall d :: d in listed && d.id == id ==> d == NewDoc(id, req, now).(status := "approved")
  {
    added := api.AddDonor(req, now);
    id := added.body.donor.id;
    var n := |api.donors| - 1;
    assert api.donors[n] == added.body.donor;
    assert IndexOf(api.donors, id) == Some(n) by {
      assert forall k :: 0 <= k < n ==> api.donors[k].id != api.donors[n].id;
    }
    var updated := api.UpdateDonorStatus(id, "approved");
    var stored := api.donors;
    assert stored[n] == NewDoc(id, req, now).(status := "approved");
    var all := api.GetDonors();
    listed := all.body.donors;
    assert stored[n] in multiset(listed);
    forall d | d in listed && d.id == id
      ensures d == stored[n]
    {
      assert d in multiset(stored);
      var k :| 0 <= k < |stored| && stored[k] == d;
      assert k == n by {
        assert forall a :: 0 <= a < |stored| && a != n ==> stored[a].id != stored[n].id;
      }
    }
  }
}
