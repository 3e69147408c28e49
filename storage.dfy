/**
 * The in-memory record store: three keyed tables (admins, donors, contact
 * messages) filled in place. A JavaScript `Map` iterates in the order keys
 * were first set, and `find` and the listings depend on that order, so each
 * table keeps the list of its keys in insertion order beside it. A counter
 * stands in for `randomUUID`: every id it hands out is fresh.
 */
module Storage {
  import opened Wrappers
  import opened Schema
  import opened Collections

  /** `order` lists the keys of `m` once each, and every key is below `bound`. */
  ghost predicate Table<V>(m: map<Id, V>, order: seq<Id>, bound: nat)
  {
    && Distinct(order)
    && (forall k :: k in m <==> k in order)
    && (forall k :: k in m ==> k < bound)
  }

  /** A table holds as many values as its order lists keys. */
  lemma TableSize<V>(m: map<Id, V>, order: seq<Id>, bound: nat)
    requires Table(m, order, bound)
    ensures |m| == |order|
  {
    DistinctSize(order);
    assert m.Keys == Elements(order);
  }

  /** The listing of a table in insertion order holds each stored value once and nothing else. */
  lemma TableListing<V>(m: map<Id, V>, order: seq<Id>, bound: nat)
    requires Table(m, order, bound)
    ensures |InOrder(m, order)| == |m|
    ensures forall v :: v in InOrder(m, order) <==> v in m.Values
  {
    TableSize(m, order, bound);
    var listing := InOrder(m, order);
    forall v | v in m.Values
      ensures v in listing
    {
      var k :| k in m && m[k] == v;
      var i :| 0 <= i < |order| && order[i] == k;
      assert listing[i] == v;
    }
  }

  /**
   * Sorting a table's listing gives each stored value once and nothing else,
   * with values of equal timestamp in insertion order.
   */
  lemma SortedListing<V>(m: map<Id, V>, order: seq<Id>, bound: nat, key: V -> int)
    requires Table(m, order, bound)
    ensures |SortNewestFirst(InOrder(m, order), key)| == |m|
    ensures forall v :: v in SortNewestFirst(InOrder(m, order), key) <==> v in m.Values
    ensures forall t :: WithKey(SortNewestFirst(InOrder(m, order), key), key, t) == WithKey(InOrder(m, order), key, t)
  {
    TableListing(m, order, bound);
    var listing := InOrder(m, order);
    SortStable(listing, key);
    var r := SortNewestFirst(listing, key);
    assert forall v :: v in r <==> v in multiset(listing);
  }

  /** Recording a key at or above the bound at the end of the order keeps a table, with the bound raised past it. */
  lemma TableAppend<V>(m: map<Id, V>, order: seq<Id>, bound: nat, v: V)
    requires Table(m, order, bound)
    ensures Table(m[bound := v], order + [bound], bound + 1)
  {
    var order' := order + [bound];
    forall i, j | 0 <= i < j < |order'|
      ensures order'[i] != order'[j]
    {
      assert order'[i] == order[i] && order[i] in m;
    }
    assert forall j :: j in order' <==> j in order || j == bound;
  }

  /** Recording a fresh key at the end of the order lists the new value last. */
  lemma InOrderAppend<V>(m: map<Id, V>, order: seq<Id>, k: Id, v: V)
    requires forall j :: j in order ==> j in m
    requires k !in order
    ensures InOrder(m[k := v], order + [k]) == InOrder(m, order) + [v]
  {
    var before, after := InOrder(m, order), InOrder(m[k := v], order + [k]);
    forall i | 0 <= i < |after|
      ensures after[i] == (before + [v])[i]
    {
      if i < |order| {
        assert (order + [k])[i] == order[i];
      }
    }
  }

  class MemStorage {
    var admins: map<Id, Admin>
    var donors: map<Id, Donor>
    var contactMessages: map<Id, ContactMessage>
    // Insertion order of each table's keys.
    var adminOrder: seq<Id>
    var donorOrder: seq<Id>
    var contactOrder: seq<Id>
    // Every id below this one has been handed out.
    var nextId: Id

    ghost predicate Valid()
      reads this
    {
      && Table(admins, adminOrder, nextId)
      && Table(donors, donorOrder, nextId)
      && Table(contactMessages, contactOrder, nextId)
      && (forall k :: k in admins ==> admins[k].id == k)
      && (forall k :: k in donors ==> donors[k].id == k)
      && (forall k :: k in contactMessages ==> contactMessages[k].id == k)
    }

    /** The admins in the order `Map.values()` yields them. */
    function Admins(): seq<Admin>
      reads this
      requires Valid()
    {
      InOrder(admins, adminOrder)
    }

    function Donors(): seq<Donor>
      reads this
      requires Valid()
    {
      InOrder(donors, donorOrder)
    }

    function ContactMessages(): seq<ContactMessage>
      reads this
      requires Valid()
    {
      InOrder(contactMessages, contactOrder)
    }

    /** A fresh store holds the seeded admin account and nothing else. */
    constructor ()
      ensures Valid()
      ensures |admins| == 1
      ensures Admins() == [Admin(Admins()[0].id, InsertAdmin("admin", "password", "Admin User"))]
      ensures donors == map[] && contactMessages == map[]
    {
      var defaultAdmin := Admin(0, InsertAdmin("admin", "password", "Admin User"));
      admins := map[0 := defaultAdmin];
      adminOrder := [0];
      donors, donorOrder := map[], [];
      contactMessages, contactOrder := map[], [];
      nextId := 1;
    }

    /**
     * The first admin, in insertion order, whose username is exactly
     * `username` (case matters), or nothing when no admin has it.
     */
    function GetAdminByUsername(username: string): (r: Option<Admin>)
      reads this
      requires Valid()
      ensures r.Some? ==> r.value.fields.username == username
      ensures r.Some? ==> r.value.id in admins && admins[r.value.id] == r.value
      ensures r.None? <==> forall k :: k in admins ==> admins[k].fields.username != username
      ensures r.Some? ==> exists i :: 0 <= i < |Admins()| && Admins()[i] == r.value
                                       && forall j :: 0 <= j < i ==> Admins()[j].fields.username != username
    {
      var all := Admins();
      assert forall k :: k in admins ==> exists i :: 0 <= i < |adminOrder| && adminOrder[i] == k && all[i] == admins[k];
      match FirstWith(all, AdminUsername, username)
      case None => None
      case Some(i) => Some(all[i])
    }

    /**
     * Stores a new admin under a fresh id. There is no check for an existing
     * admin with the same username; such a newcomer is stored, but lookups by
     * username keep finding the older one.
     */
    method CreateAdmin(insert: InsertAdmin) returns (admin: Admin)
      requires Valid()
      modifies this
      ensures Valid()
      ensures admin.fields == insert && admin.id !in old(admins)
      ensures admins == old(admins)[admin.id := admin]
      ensures Admins() == old(Admins()) + [admin]
      ensures old(GetAdminByUsername(insert.username)).Some? ==>
                GetAdminByUsername(insert.username) == old(GetAdminByUsername(insert.username))
      ensures donors == old(donors) && donorOrder == old(donorOrder)
      ensures contactMessages == old(contactMessages) && contactOrder == old(contactOrder)
    {
      var id := nextId;
      admin := Admin(id, insert);
      InOrderAppend(admins, adminOrder, id, admin);
      TableAppend(admins, adminOrder, nextId, admin);
      FirstWithAppend(Admins(), admin, AdminUsername, insert.username);
      admins := admins[id := admin];
      adminOrder := adminOrder + [id];
      nextId := nextId + 1;
    }

    /** All donors, newest application first: a reordering of the table and nothing else. */
    function GetAllDonors(): (r: seq<Donor>)
      reads this
      requires Valid()
      ensures multiset(r) == multiset(Donors())
      ensures |r| == |donors|
      ensures forall d :: d in r <==> d in donors.Values
      ensures forall i, j :: 0 <= i < j < |r| ==> r[i].appliedAt >= r[j].appliedAt
      ensures forall t :: WithKey(r, DonorAppliedAt, t) == WithKey(Donors(), DonorAppliedAt, t)
    {
      SortedListing(donors, donorOrder, nextId, DonorAppliedAt);
      SortNewestFirst(Donors(), DonorAppliedAt)
    }

    /** The donor stored under `id`, if any. */
    function GetDonor(id: Id): (r: Option<Donor>)
      reads this
      requires Valid()
      ensures r.Some? <==> id in donors
      ensures r.Some? ==> r.value.id == id && r.value == donors[id]
    {
      if id in donors then Some(donors[id]) else None
    }

    /** Stores a new, pending application stamped with the current time under a fresh id. */
    method CreateDonor(insert: InsertDonor, now: nat) returns (donor: Donor)
      requires Valid()
      modifies this
      ensures Valid()
      ensures donor.fields == insert && donor.status == Pending && donor.appliedAt == now
      ensures donor.id !in old(donors)
      ensures donors == old(donors)[donor.id := donor] && |donors| == |old(donors)| + 1
      ensures Donors() == old(Donors()) + [donor]
      ensures GetDonor(donor.id) == Some(donor)
      ensures admins == old(admins) && adminOrder == old(adminOrder)
      ensures contactMessages == old(contactMessages) && contactOrder == old(contactOrder)
    {
      var id := nextId;
      donor := Donor(id, insert, DefaultStatus, now);
      InOrderAppend(donors, donorOrder, id, donor);
      TableAppend(donors, donorOrder, nextId, donor);
      donors := donors[id := donor];
      donorOrder := donorOrder + [id];
      nextId := nextId + 1;
    }

    /**
     * Sets the status of the donor stored under `id` and hands back the
     * updated record; an unknown id yields nothing. Only that donor's status
     * changes: its id, form fields and application time stay, it keeps its
     * place in the listing, and every other donor stays as it was.
     */
    method UpdateDonorStatus(id: Id, status: Status) returns (r: Option<Donor>)
      requires Valid()
      modifies this
      ensures Valid()
      ensures r.Some? <==> id in old(donors)
      ensures r.None? ==> donors == old(donors)
      ensures r.Some? ==>
                && r.value.id == id && r.value.status == status
                && r.value.fields == old(donors[id].fields)
                && r.value.appliedAt == old(donors[id].appliedAt)
                && donors == old(donors)[id := r.value]
      ensures donors.Keys == old(donors.Keys) && donorOrder == old(donorOrder)
      ensures admins == old(admins) && adminOrder == old(adminOrder)
      ensures contactMessages == old(contactMessages) && contactOrder == old(contactOrder)
    {
      var found := GetDonor(id);
      if found.None? {
        return None;
      }
      var updated := found.value.(status := status);
      donors := donors[id := updated];
      r := Some(updated);
    }

    /** Stores a new contact message stamped with the current time under a fresh id. */
    method CreateContactMessage(insert: InsertContactMessage, now: nat) returns (message: ContactMessage)
      requires Valid()
      modifies this
      ensures Valid()
      ensures message.fields == insert && message.createdAt == now
      ensures message.id !in old(contactMessages)
      ensures contactMessages == old(contactMessages)[message.id := message]
      ensures ContactMessages() == old(ContactMessages()) + [message]
      ensures admins == old(admins) && adminOrder == old(adminOrder)
      ensures donors == old(donors) && donorOrder == old(donorOrder)
    {
      var id := nextId;
      message := ContactMessage(id, insert, now);
      InOrderAppend(contactMessages, contactOrder, id, message);
      TableAppend(contactMessages, contactOrder, nextId, message);
      contactMessages := contactMessages[id := message];
      contactOrder := contactOrder + [id];
      nextId := nextId + 1;
    }

    /**
     * All contact messages, newest first: a reordering of the table and
     * nothing else, in which messages created at the same time keep the
     * order they were stored in.
     */
    function GetAllContactMessages(): (r: seq<ContactMessage>)
      reads this
      requires Valid()
      ensures multiset(r) == multiset(ContactMessages())
      ensures |r| == |contactMessages|
      ensures forall m :: m in r <==> m in contactMessages.Values
      ensures forall i, j :: 0 <= i < j < |r| ==> r[i].createdAt >= r[j].createdAt
      ensures forall t :: WithKey(r, ContactCreatedAt, t) == WithKey(ContactMessages(), ContactCreatedAt, t)
    {
      SortedListing(contactMessages, contactOrder, nextId, ContactCreatedAt);
      SortNewestFirst(ContactMessages(), ContactCreatedAt)
    }
  }
}
