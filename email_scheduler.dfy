/**
 * One tick of the delivery job: take `now` once, query the capsules that are
 * due and not yet delivered, and for each in turn send its mail and then mark
 * it delivered. A send that throws aborts the rest of the tick. There is no
 * claim or lease step: the job reads the due documents and then writes them.
 */
module EmailScheduler {
  import opened Wrappers
  import opened TimeCapsule

  /** One mail handed to the transport: recipient, subject line and body text. */
  datatype Mail = Mail(to: string, subject: string, text: string)

  /** The mail a due capsule is sent as: its title is the subject line, not its `subject` field. */
  function MailOf(c: Capsule): (r: Mail)
    ensures r.to == c.email && r.subject == c.title && r.text == c.message
  {
    Mail(c.email, c.title, c.message)
  }

  /**
   * The mail transport `sendMail(to, subject, text)`. `sent` logs the mails
   * the transport accepted; a send may fail, and a failed send logs nothing.
   */
  class Outbox {
    var sent: seq<Mail>

    constructor ()
      ensures sent == []
    {
      sent := [];
    }

    method Send(to: string, subject: string, text: string) returns (ok: bool)
      modifies this
      ensures sent == if ok then old(sent) + [Mail(to, subject, text)] else old(sent)
    {
      ok :| true;
      if ok {
        sent := sent + [Mail(to, subject, text)];
      }
    }
  }

  /** The due query: `deliveryDate <= now` and `isDelivered == false`. */
  predicate IsDue(c: Capsule, now: Time) {
    c.deliveryDate <= now && !c.isDelivered
  }

  function DueIds(m: map<Id, Capsule>, now: Time): (r: set<Id>)
    ensures r <= m.Keys
    ensures forall id :: id in r <==> id in m && m[id].deliveryDate <= now && !m[id].isDelivered
  {
    set id | id in m && IsDue(m[id], now)
  }

  /** The store after `isDelivered = true; save()` on each capsule of `done`. */
  function MarkDelivered(m: map<Id, Capsule>, done: seq<Id>): (r: map<Id, Capsule>)
    ensures r.Keys == m.Keys
    ensures forall id :: id in m && id !in done ==> r[id] == m[id]
    ensures forall id :: id in m && id in done ==> r[id].isDelivered && r[id].(isDelivered := m[id].isDelivered) == m[id]
  {
    map id | id in m :: if id in done then m[id].(isDelivered := true) else m[id]
  }

  /** The mails for the capsules of `ids`, in that order. */
  function MailsFor(m: map<Id, Capsule>, ids: seq<Id>): (r: seq<Mail>)
    requires forall id :: id in ids ==> id in m
    ensures |r| == |ids|
    ensures forall k :: 0 <= k < |ids| ==> r[k] == MailOf(m[ids[k]])
  {
    if ids == [] then [] else MailsFor(m, ids[..|ids| - 1]) + [MailOf(m[ids[|ids| - 1]])]
  }

  /** No identifier occurs twice: each element is absent from the part before it. */
  predicate NoDuplicates(ids: seq<Id>) {
    ids == [] || (ids[|ids| - 1] !in ids[..|ids| - 1] && NoDuplicates(ids[..|ids| - 1]))
  }

  /** Marking one more due capsule delivered extends the marked set by that capsule. */
  lemma MarkOneMore(m: map<Id, Capsule>, done: seq<Id>, id: Id)
    requires id in m
    ensures MarkDelivered(m, done)[id := m[id].(isDelivered := true)] == MarkDelivered(m, done + [id])
  {
    var lhs, rhs := MarkDelivered(m, done)[id := m[id].(isDelivered := true)], MarkDelivered(m, done + [id]);
    assert lhs.Keys == rhs.Keys;
    forall k | k in lhs ensures lhs[k] == rhs[k] {
    }
  }

  /** Sending one more capsule's mail appends that mail to the log. */
  lemma MailsForSnoc(m: map<Id, Capsule>, log: seq<Mail>, ids: seq<Id>, id: Id)
    requires forall i :: i in ids ==> i in m
    requires id in m
    ensures log + MailsFor(m, ids + [id]) == log + MailsFor(m, ids) + [MailOf(m[id])]
  {
    assert (ids + [id])[..|ids|] == ids;
  }

  /**
   * The body of the delivery loop for one capsule: send its mail and, only if
   * the send returned, set `isDelivered` and save it.
   */
  method DeliverOne(store: CapsuleStore, outbox: Outbox, id: Id) returns (ok: bool)
    requires store.Valid() && id in store.records
    modifies store`records, outbox
    ensures store.Valid()
    ensures ok ==> store.records == old(store.records)[id := old(store.records)[id].(isDelivered := true)]
    ensures ok ==> outbox.sent == old(outbox.sent) + [MailOf(old(store.records)[id])]
    ensures !ok ==> store.records == old(store.records) && outbox.sent == old(outbox.sent)
  {
    var capsule := store.records[id];
    ok := outbox.Send(capsule.email, capsule.title, capsule.message);
    if ok {
      store.Save(capsule.(isDelivered := true));
    }
  }

  /**
   * One cycle at time `now`. `order` is the sequence of capsules whose mail was
   * sent and which were then marked delivered; `failed` is the capsule whose
   * send threw, which ended the cycle early.
   */
  method RunCycle(store: CapsuleStore, outbox: Outbox, now: Time) returns (order: seq<Id>, failed: Option<Id>)
    requires store.Valid()
    modifies store`records, outbox
    ensures store.Valid()
    ensures NoDuplicates(order)
    ensures forall id :: id in order ==> id in DueIds(old(store.records), now)
    ensures failed == None ==> forall id :: id in DueIds(old(store.records), now) ==> id in order
    ensures failed != None ==> failed.value in DueIds(old(store.records), now) && failed.value !in order
    ensures store.records == MarkDelivered(old(store.records), order)
    ensures outbox.sent == old(outbox.sent) + MailsFor(old(store.records), order)
  {
    var due := DueIds(store.records, now);
    ghost var before := store.records;
    ghost var sentBefore := outbox.sent;
    var remaining := due;
    order, failed := [], None;
    while remaining != {}
      invariant store.Valid() && remaining <= due
      invariant forall id :: id in order <==> id in due && id !in remaining
      invariant NoDuplicates(order)
      invariant store.records == MarkDelivered(before, order)
      invariant outbox.sent == sentBefore + MailsFor(before, order)
      decreases remaining
    {
      var id :| id in remaining;
      assert store.records[id] == before[id];
      var ok := DeliverOne(store, outbox, id);
      if !ok {
        failed := Some(id);
        break;
      }
      MarkOneMore(before, order, id);
      MailsForSnoc(before, sentBefore, order, id);
      ghost var prev := order;
      order := order + [id];
      assert order[..|order| - 1] == prev;
      remaining := remaining - {id};
    }
  }

  /** Only the capsules of `order` are marked; the due set shrinks by exactly those. */
  lemma DueAfterMark(m: map<Id, Capsule>, now: Time, order: seq<Id>, id: Id)
    ensures id in DueIds(MarkDelivered(m, order), now) <==> id in DueIds(m, now) && id !in order
  {
  }

  /**
   * After a cycle in which every send succeeded, nothing is due at the same
   * `now`; `RunTwice` builds on this to show that a second cycle sends nothing
   * and changes nothing.
   */
  lemma {:induction false} NothingDueAfterCompleteCycle(m: map<Id, Capsule>, now: Time, order: seq<Id>)
    requires forall id :: id in DueIds(m, now) ==> id in order
    ensures DueIds(MarkDelivered(m, order), now) == {}
  {
    var after := MarkDelivered(m, order);
    forall id | id in DueIds(after, now) ensures false {
      DueAfterMark(m, now, order, id);
    }
  }

  /**
   * A capsule the cycle did not reach (its send failed, or an earlier send
   * failed) is unchanged and still due, so the next cycle retries it.
   */
  lemma UnsentCapsuleStaysDue(m: map<Id, Capsule>, now: Time, order: seq<Id>, id: Id)
    requires id in DueIds(m, now) && id !in order
    ensures id in MarkDelivered(m, order) && MarkDelivered(m, order)[id] == m[id]
    ensures id in DueIds(MarkDelivered(m, order), now)
  {
  }

  /** A capsule that is not due (future date, or already delivered) is neither sent nor changed. */
  lemma NotDueUntouched(m: map<Id, Capsule>, now: Time, order: seq<Id>, id: Id)
    requires forall i :: i in order ==> i in DueIds(m, now)
    requires id in m && (m[id].deliveryDate > now || m[id].isDelivered)
    ensures id !in order
    ensures id in MarkDelivered(m, order) && MarkDelivered(m, order)[id] == m[id]
  {
  }

  /**
   * A cycle changes no field but `isDelivered`, and that one only from false
   * to true: every record afterwards is the record before, or the record
   * before with an unset flag now set.
   */
  lemma FlagOnlyRises(m: map<Id, Capsule>, now: Time, order: seq<Id>, id: Id)
    requires forall i :: i in order ==> i in DueIds(m, now)
    requires id in m
    ensures id in MarkDelivered(m, order)
    ensures MarkDelivered(m, order)[id] == m[id]
            || (!m[id].isDelivered && MarkDelivered(m, order)[id] == m[id].(isDelivered := true))
  {
  }

  /** A duplicate-free sequence drawn from a set is no longer than the set. */
  lemma {:induction false} NoDuplicatesBound(ids: seq<Id>, pool: set<Id>)
    requires NoDuplicates(ids)
    requires forall id :: id in ids ==> id in pool
    ensures |ids| <= |pool|
  {
    if ids != [] {
      var init, last := ids[..|ids| - 1], ids[|ids| - 1];
      assert last in ids;
      forall id | id in init ensures id in pool - {last} {
        assert id in ids;
      }
      NoDuplicatesBound(init, pool - {last});
    }
  }

  /** In a sequence without duplicates every member occurs exactly once. */
  lemma {:induction false} NoDuplicatesOccursOnce(ids: seq<Id>, id: Id)
    requires NoDuplicates(ids) && id in ids
    ensures multiset(ids)[id] == 1
  {
    var init, last := ids[..|ids| - 1], ids[|ids| - 1];
    assert ids == init + [last];
    if id != last {
      NoDuplicatesOccursOnce(init, id);
    } else {
      var before: multiset<Id> := multiset(init);
      assert before[id] == 0;
    }
  }

  /**
   * Each capsule a cycle delivered got exactly one send: its identifier occurs
   * once in `order`, and the mail at that position is built from it.
   */
  lemma OneMailPerDelivery(m: map<Id, Capsule>, order: seq<Id>, id: Id)
    requires forall i :: i in order ==> i in m
    requires NoDuplicates(order) && id in order
    ensures multiset(order)[id] == 1
    ensures exists k :: 0 <= k < |order| && order[k] == id && MailsFor(m, order)[k] == MailOf(m[id])
  {
    NoDuplicatesOccursOnce(order, id);
    var k :| 0 <= k < |order| && order[k] == id;
  }

  /**
   * Two cycles at the same `now` with no other change in between: when every
   * send of the first succeeded, the second sends nothing and changes nothing.
   */
  method RunTwice(store: CapsuleStore, outbox: Outbox, now: Time)
    returns (first: seq<Id>, firstFailed: Option<Id>, second: seq<Id>)
    requires store.Valid()
    modifies store`records, outbox
    ensures store.Valid()
    ensures forall id :: id in first ==> id in DueIds(old(store.records), now) && id in old(store.records)
    ensures firstFailed == None ==>
              second == [] && store.records == MarkDelivered(old(store.records), first)
              && outbox.sent == old(outbox.sent) + MailsFor(old(store.records), first)
  {
    first, firstFailed := RunCycle(store, outbox, now);
    ghost var between, sentBetween := store.records, outbox.sent;
    var secondFailed;
    second, secondFailed := RunCycle(store, outbox, now);
    if firstFailed == None {
      NothingDueAfterCompleteCycle(old(store.records), now, first);
      NoDuplicatesBound(second, DueIds(between, now));
      assert MailsFor(between, second) == [];
    }
  }
}
