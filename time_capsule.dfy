/**
 * The TimeCapsule record (a Mongoose schema with defaults) and the
 * collection that stores it, with the model's static `removeCapsule`.
 */
module TimeCapsule {
  import opened Wrappers

  /** Document identifiers (ObjectIds) and user identifiers, compared by equality only. */
  type Id = nat
  type UserId = nat

  /** Timestamps are milliseconds since the epoch. */
  type Time = int

  datatype Capsule = Capsule(
    id: Id,
    user: UserId,
    title: string,
    message: string,
    email: string,
    subject: string,
    media: seq<string>,
    deliveryDate: Time,
    isDelivered: bool,
    createdAt: Time)

  /**
   * A document built from the fields a caller supplies; the schema fills in
   * `isDelivered` (false) and `createdAt` (the time of construction).
   */
  function NewCapsule(id: Id, user: UserId, title: string, message: string, email: string,
                      subject: string, media: seq<string>, deliveryDate: Time, now: Time): (c: Capsule)
    ensures !c.isDelivered && c.createdAt == now
    ensures c.id == id && c.user == user && c.media == media && c.deliveryDate == deliveryDate
    ensures c.title == title && c.message == message && c.email == email && c.subject == subject
  {
    Capsule(id, user, title, message, email, subject, media, deliveryDate, false, now)
  }

  /**
   * The schema's `required: true` string paths: Mongoose rejects a missing or
   * empty string for title, message, email and subject on save.
   */
  predicate SchemaComplete(c: Capsule) {
    c.title != "" && c.message != "" && c.email != "" && c.subject != ""
  }

  /** Every document is stored under its own identifier. */
  ghost predicate WellKeyed(m: map<Id, Capsule>) {
    forall id :: id in m ==> m[id].id == id
  }

  /** The capsules of one user, as a set of documents. */
  ghost function OwnedBy(m: map<Id, Capsule>, user: UserId): set<Capsule> {
    set id | id in m && m[id].user == user :: m[id]
  }

  /** Removing one key removes exactly that document from its owner's set and nothing from anyone else's. */
  lemma {:induction false} OwnedByAfterRemove(m: map<Id, Capsule>, id: Id, user: UserId)
    requires WellKeyed(m)
    ensures OwnedBy(m - {id}, user) == OwnedBy(m, user) - (if id in m then {m[id]} else {})
  {
    var before, after := OwnedBy(m, user), OwnedBy(m - {id}, user);
    forall c | c in after ensures c in before && (id in m ==> c != m[id]) {
      var k :| k in m - {id} && (m - {id})[k].user == user && c == (m - {id})[k];
    }
    forall c | c in before && (id !in m || c != m[id]) ensures c in after {
      var k :| k in m && m[k].user == user && c == m[k];
      assert k != id;
      assert k in m - {id} && (m - {id})[k] == c;
    }
  }

  /**
   * The capsule collection. `records` is the collection's content keyed by
   * `_id`; `nextId` stands for the identifier generator, which never hands out
   * an identifier that is already in use.
   */
  class CapsuleStore {
    var records: map<Id, Capsule>
    var nextId: Id

    ghost predicate Valid()
      reads this
    {
      WellKeyed(records) && forall id :: id in records ==> id < nextId
    }

    constructor ()
      ensures Valid() && records == map[]
    {
      records := map[];
      nextId := 0;
    }

    /** A fresh identifier for a document under construction. */
    method NewId() returns (id: Id)
      requires Valid()
      modifies this`nextId
      ensures Valid() && id !in records
      ensures id == old(nextId) && nextId == old(nextId) + 1
    {
      id := nextId;
      nextId := nextId + 1;
    }

    /** `document.save()`: insert a new document or overwrite the stored one with the same `_id`. */
    method Save(c: Capsule)
      requires Valid() && c.id < nextId
      modifies this`records
      ensures Valid() && records == old(records)[c.id := c]
    {
      records := records[c.id := c];
    }

    /** `findByIdAndDelete`: drop the document with this identifier, if any. */
    method DeleteById(id: Id)
      requires Valid()
      modifies this`records
      ensures Valid() && records == old(records) - {id}
    {
      records := records - {id};
    }

    /**
     * `TimeCapsule.removeCapsule(capsuleId, userId)`: a missing capsule fails
     * with "Time capsule not found"; a capsule of another user fails with
     * "Not authorized to delete this capsule" (existence is checked first);
     * otherwise exactly that capsule is deleted and a success message returned.
     */
    method RemoveCapsule(capsuleId: Id, userId: UserId) returns (r: Result<string, string>)
      requires Valid()
      modifies this`records
      ensures Valid()
      ensures capsuleId !in old(records) ==>
                r == Failure("Time capsule not found") && records == old(records)
      ensures capsuleId in old(records) && old(records)[capsuleId].user != userId ==>
                r == Failure("Not authorized to delete this capsule") && records == old(records)
      ensures capsuleId in old(records) && old(records)[capsuleId].user == userId ==>
                r == Success("Time capsule removed successfully") && records == old(records) - {capsuleId}
    {
      if capsuleId !in records {
        return Failure("Time capsule not found");
      }
      var capsule := records[capsuleId];
      if capsule.user != userId {
        return Failure("Not authorized to delete this capsule");
      }
      DeleteById(capsuleId);
      r := Success("Time capsule removed successfully");
    }
  }
}
