/**
 * The owner-scoped HTTP handlers for capsules: create (with field checks),
 * list (newest first), get, update and delete, each restricted to the
 * capsules of the authenticated caller.
 */
module CapsuleRoutes {
  import opened Wrappers
  import opened TimeCapsule
  import EmailScheduler

  /** A form body as the upload middleware hands it over: field name to string value. */
  type Body = map<string, string>

  /** An uploaded media file; only its stored path is used. */
  datatype Upload = Upload(path: string)

  /** The fields a create request must carry, in the order they are checked. */
  const RequiredFields: seq<string> := ["title", "subject", "message", "email", "deliveryDate"]

  /** `req.body[field]` is truthy: present and not the empty string. */
  predicate Present(body: Body, field: string) {
    field in body && body[field] != ""
  }

  /** The first of `fields` that the body lacks, if any. */
  function FirstAbsent(fields: seq<string>, body: Body): (r: Option<string>)
    ensures r != None ==> r.value in fields && !Present(body, r.value)
  {
    if fields == [] then None
    else if !Present(body, fields[0]) then Some(fields[0])
    else FirstAbsent(fields[1..], body)
  }

  /**
   * FirstAbsent names a field exactly when some field is absent, and the one it
   * names is absent while every field before it is present.
   */
  lemma {:induction false} FirstAbsentIsFirst(fields: seq<string>, body: Body)
    ensures FirstAbsent(fields, body) == None <==> forall k :: 0 <= k < |fields| ==> Present(body, fields[k])
    ensures FirstAbsent(fields, body) != None ==>
              exists k :: 0 <= k < |fields| && fields[k] == FirstAbsent(fields, body).value
                          && !Present(body, fields[k])
                          && forall j :: 0 <= j < k ==> Present(body, fields[j])
  {
    if fields != [] && Present(body, fields[0]) {
      FirstAbsentIsFirst(fields[1..], body);
      if FirstAbsent(fields, body) != None {
        var k :| 0 <= k < |fields| - 1 && fields[1..][k] == FirstAbsent(fields, body).value
                 && !Present(body, fields[1..][k])
                 && forall j :: 0 <= j < k ==> Present(body, fields[1..][j]);
        assert fields[k + 1] == fields[1..][k];
        forall j | 0 <= j < k + 1 ensures Present(body, fields[j]) {
          if j > 0 { assert fields[j] == fields[1..][j - 1]; }
        }
      }
    }
  }

  /** No required field is missing. */
  predicate AllRequiredPresent(body: Body) {
    forall k :: 0 <= k < |RequiredFields| ==> Present(body, RequiredFields[k])
  }

  /** The five required fields, one by one. */
  lemma RequiredFieldsPresent(body: Body)
    requires AllRequiredPresent(body)
    ensures Present(body, "title") && Present(body, "subject") && Present(body, "message")
    ensures Present(body, "email") && Present(body, "deliveryDate")
  {
    assert RequiredFields[0] == "title" && RequiredFields[1] == "subject";
    assert RequiredFields[2] == "message" && RequiredFields[3] == "email";
    assert RequiredFields[4] == "deliveryDate";
  }

  /**
   * The required-field check of the create handler: walks the fields in
   * order and stops at the first one whose value is missing or empty.
   */
  method FirstMissing(body: Body) returns (missing: Option<string>)
    ensures missing == FirstAbsent(RequiredFields, body)
  {
    for i := 0 to |RequiredFields|
      invariant FirstAbsent(RequiredFields, body) == FirstAbsent(RequiredFields[i..], body)
    {
      assert RequiredFields[i..][1..] == RequiredFields[i + 1..];
      if !Present(body, RequiredFields[i]) {
        return Some(RequiredFields[i]);
      }
    }
    return None;
  }

  /** `req.files ? req.files.map(file => file.path) : []`. */
  function MediaPaths(files: Option<seq<Upload>>): (paths: seq<string>)
    ensures files == None ==> paths == []
    ensures files != None ==> |paths| == |files.value|
    ensures files != None ==> forall k :: 0 <= k < |paths| ==> paths[k] == files.value[k].path
  {
    match files
    case None => []
    case Some(fs) => seq(|fs|, k requires 0 <= k < |fs| => fs[k].path)
  }

  /** The accepted fields of a create request, with the delivery date parsed. */
  datatype Draft = Draft(title: string, subject: string, message: string, email: string, deliveryDate: Time)

  /**
   * The create handler's checks: the first missing required field, then a
   * delivery date that does not parse (`isNaN(new Date(s).getTime())`); each is
   * a 400 with the given message. `parse` stands for `new Date(s)`.
   */
  function Validate(body: Body, parse: string -> Option<Time>): (r: Result<Draft, string>)
    ensures r.Success? ==>
              AllRequiredPresent(body) && "deliveryDate" in body
              && parse(body["deliveryDate"]) == Some(r.value.deliveryDate)
    ensures r.Failure? ==>
              (r.error == "Invalid deliveryDate format"
               || exists k :: 0 <= k < |RequiredFields| && r.error == "Missing required field: " + RequiredFields[k])
  {
    match FirstAbsent(RequiredFields, body)
    case Some(field) => Failure("Missing required field: " + field)
    case None =>
      FirstAbsentIsFirst(RequiredFields, body);
      RequiredFieldsPresent(body);
      match parse(body["deliveryDate"])
      case None => Failure("Invalid deliveryDate format")
      case Some(date) => Success(Draft(body["title"], body["subject"], body["message"], body["email"], date))
  }

  /**
   * What validation promises: a rejection names the first missing field in
   * check order, or the date; an accepted request carries every required
   * field, non-empty, with a parsable date.
   */
  lemma ValidateOutcome(body: Body, parse: string -> Option<Time>)
    ensures Validate(body, parse).Failure? <==>
              !AllRequiredPresent(body) || ("deliveryDate" in body && parse(body["deliveryDate"]) == None)
    ensures Validate(body, parse).Success? ==>
              && Present(body, "title") && Present(body, "subject") && Present(body, "message")
              && Present(body, "email") && Present(body, "deliveryDate")
              && var d := Validate(body, parse).value;
              && d.title == body["title"] && d.subject == body["subject"]
              && d.message == body["message"] && d.email == body["email"]
              && parse(body["deliveryDate"]) == Some(d.deliveryDate)
    ensures forall f :: Validate(body, parse) == Failure("Missing required field: " + f) ==>
              exists k :: 0 <= k < |RequiredFields| && RequiredFields[k] == f && !Present(body, f)
                          && forall j :: 0 <= j < k ==> Present(body, RequiredFields[j])
    ensures !AllRequiredPresent(body) ==>
              FirstAbsent(RequiredFields, body) != None
              && Validate(body, parse) == Failure("Missing required field: " + FirstAbsent(RequiredFields, body).value)
  {
    FirstAbsentIsFirst(RequiredFields, body);
    if AllRequiredPresent(body) {
      RequiredFieldsPresent(body);
    }
    forall f | Validate(body, parse) == Failure("Missing required field: " + f)
      ensures FirstAbsent(RequiredFields, body) == Some(f)
    {
      var prefix := "Missing required field: ";
      assert (prefix + f)[0] == 'M';
      assert FirstAbsent(RequiredFields, body) != None;
      var g := FirstAbsent(RequiredFields, body).value;
      assert (prefix + f)[|prefix|..] == f && (prefix + g)[|prefix|..] == g;
    }
  }

  /** The document the create handler saves for an accepted request. */
  function CapsuleFromDraft(id: Id, user: UserId, d: Draft, media: seq<string>, now: Time): (c: Capsule)
    ensures c.id == id && c.user == user && !c.isDelivered && c.createdAt == now && c.media == media
    ensures c.title == d.title && c.subject == d.subject && c.message == d.message
    ensures c.email == d.email && c.deliveryDate == d.deliveryDate
  {
    NewCapsule(id, user, d.title, d.message, d.email, d.subject, media, d.deliveryDate, now)
  }

  /**
   * A created capsule belongs to the caller, is undelivered, was created now,
   * lists the uploaded paths in upload order and passes the schema's required
   * checks on save.
   */
  lemma CreatedCapsuleShape(id: Id, user: UserId, body: Body, parse: string -> Option<Time>,
                            files: Option<seq<Upload>>, now: Time)
    requires Validate(body, parse).Success?
    ensures var c := CapsuleFromDraft(id, user, Validate(body, parse).value, MediaPaths(files), now);
            && c.user == user && !c.isDelivered && c.createdAt == now
            && c.media == MediaPaths(files) && SchemaComplete(c)
  {
    ValidateOutcome(body, parse);
  }

  /** The HTTP outcome of a handler; the comment gives the status code. */
  datatype Reply =
    | Created                         // 201 'Time capsule created successfully'
    | Listing(capsules: seq<Capsule>) // 200
    | Found(capsule: Capsule)         // 200, get and update
    | Removed                         // 200 'Time capsule deleted successfully'
    | BadRequest(msg: string)         // 400
    | NotFound                        // 404 'Time capsule not found'
  {
    function Status(): nat {
      match this
      case Created => 201
      case BadRequest(_) => 400
      case NotFound => 404
      case _ => 200
    }
  }

  /**
   * POST: validate, then save a new capsule owned by the caller. A rejected
   * request stores nothing.
   */
  method Create(store: CapsuleStore, user: UserId, body: Body, files: Option<seq<Upload>>,
                parse: string -> Option<Time>, now: Time) returns (reply: Reply)
    requires store.Valid()
    modifies store
    ensures store.Valid()
    ensures reply.Status() == 400 <==> Validate(body, parse).Failure?
    ensures reply.Status() == 201 <==> Validate(body, parse).Success?
    ensures Validate(body, parse).Failure? ==>
              reply == BadRequest(Validate(body, parse).error) && store.records == old(store.records)
    ensures Validate(body, parse).Success? ==>
              && reply == Created && old(store.nextId) !in old(store.records)
              && store.records == old(store.records)[old(store.nextId) :=
                   CapsuleFromDraft(old(store.nextId), user, Validate(body, parse).value, MediaPaths(files), now)]
  {
    var missing := FirstMissing(body);
    if missing != None {
      return BadRequest("Missing required field: " + missing.value);
    }
    FirstAbsentIsFirst(RequiredFields, body);
    RequiredFieldsPresent(body);
    var date := parse(body["deliveryDate"]);
    if date == None {
      return BadRequest("Invalid deliveryDate format");
    }
    var media := MediaPaths(files);
    var id := store.NewId();
    var draft := Draft(body["title"], body["subject"], body["message"], body["email"], date.value);
    assert Validate(body, parse) == Success(draft);
    store.Save(CapsuleFromDraft(id, user, draft, media, now));
    reply := Created;
  }

  /** Newest first: `createdAt` never increases along the list. */
  predicate NewestFirst(s: seq<Capsule>) {
    forall i, j :: 0 <= i < j < |s| ==> s[i].createdAt >= s[j].createdAt
  }

  /** The head of a newest-first list is at least as new as everything after it. */
  lemma HeadIsNewest(s: seq<Capsule>)
    requires NewestFirst(s) && s != []
    ensures forall y :: y in s[1..] ==> y.createdAt <= s[0].createdAt
  {
    forall y | y in s[1..] ensures y.createdAt <= s[0].createdAt {
      var k :| 0 <= k < |s[1..]| && s[1..][k] == y;
      assert s[k + 1] == y;
    }
  }

  /** Putting a capsule at least as new as a newest-first list in front of it keeps it newest first. */
  lemma NewestFirstCons(x: Capsule, s: seq<Capsule>)
    requires NewestFirst(s) && forall y :: y in s ==> y.createdAt <= x.createdAt
    ensures NewestFirst([x] + s)
  {
    var r := [x] + s;
    forall i, j | 0 <= i < j < |r| ensures r[i].createdAt >= r[j].createdAt {
      assert r[j] == s[j - 1];
      if i == 0 {
        assert s[j - 1] in s;
      } else {
        assert r[i] == s[i - 1];
      }
    }
  }

  /** Insert a capsule into a newest-first list, keeping it newest first. */
  function InsertNewestFirst(s: seq<Capsule>, c: Capsule): (r: seq<Capsule>)
    requires NewestFirst(s)
    ensures NewestFirst(r)
    ensures multiset(r) == multiset(s) + multiset{c}
  {
    if s == [] then [c]
    else if c.createdAt >= s[0].createdAt then
      HeadIsNewest(s);
      assert s == [s[0]] + s[1..];
      NewestFirstCons(c, s);
      [c] + s
    else
      var rest := InsertNewestFirst(s[1..], c);
      assert s == [s[0]] + s[1..];
      HeadBoundsInsertion(s, c, rest);
      NewestFirstCons(s[0], rest);
      [s[0]] + rest
  }

  lemma HeadBoundsInsertion(s: seq<Capsule>, c: Capsule, rest: seq<Capsule>)
    requires NewestFirst(s) && s != [] && c.createdAt < s[0].createdAt
    requires multiset(rest) == multiset(s[1..]) + multiset{c}
    ensures forall x :: x in rest ==> x.createdAt <= s[0].createdAt
  {
    HeadIsNewest(s);
    forall x | x in rest ensures x.createdAt <= s[0].createdAt {
      assert x in multiset(rest);
      if x != c {
        assert x in multiset(s[1..]);
      }
    }
  }

  /** The documents stored under a set of identifiers. */
  ghost function DocsOf(m: map<Id, Capsule>, ids: set<Id>): set<Capsule> {
    set id | id in ids && id in m :: m[id]
  }

  lemma DocsOfAddOne(m: map<Id, Capsule>, ids: set<Id>, id: Id)
    requires WellKeyed(m) && id in m && id !in ids
    ensures m[id] !in DocsOf(m, ids)
    ensures DocsOf(m, ids + {id}) == DocsOf(m, ids) + {m[id]}
  {
  }

  /**
   * GET list: `find({ user }).sort({ createdAt: -1 })` — every capsule of the
   * caller exactly once, nobody else's, newest first.
   */
  method List(store: CapsuleStore, user: UserId) returns (reply: Reply)
    requires store.Valid()
    ensures reply.Listing?
    ensures multiset(reply.capsules) == multiset(OwnedBy(store.records, user))
    ensures NewestFirst(reply.capsules)
  {
    var owned := set id | id in store.records && store.records[id].user == user;
    var rest := owned;
    var list: seq<Capsule> := [];
    while rest != {}
      invariant rest <= owned
      invariant NewestFirst(list)
      invariant multiset(list) == multiset(DocsOf(store.records, owned - rest))
      decreases rest
    {
      var id :| id in rest;
      DocsOfAddOne(store.records, owned - rest, id);
      assert owned - (rest - {id}) == (owned - rest) + {id};
      list := InsertNewestFirst(list, store.records[id]);
      rest := rest - {id};
    }
    assert DocsOf(store.records, owned) == OwnedBy(store.records, user);
    reply := Listing(list);
  }

  /** The `{ _id: id, user }` filter of get, update and delete. */
  function FindOwned(m: map<Id, Capsule>, id: Id, user: UserId): (r: Option<Capsule>)
    ensures r != None <==> id in m && m[id].user == user
    ensures r != None ==> r.value == m[id]
  {
    if id in m && m[id].user == user then Some(m[id]) else None
  }

  /** GET one: the capsule if the caller owns it; 404 if it is missing or someone else's. */
  method Get(store: CapsuleStore, id: Id, user: UserId) returns (reply: Reply)
    ensures reply.Found? <==> id in store.records && store.records[id].user == user
    ensures reply.Found? ==> reply.capsule == store.records[id]
    ensures !reply.Found? ==> reply == NotFound
    ensures reply.Status() == 404 <==> FindOwned(store.records, id, user) == None
  {
    var found := FindOwned(store.records, id, user);
    if found == None {
      return NotFound;
    }
    reply := Found(found.value);
  }

  /**
   * An update body after casting: each schema path the body sets. Paths the
   * body leaves out are None. The identifier cannot be set.
   */
  datatype Patch = Patch(
    user: Option<UserId>,
    title: Option<string>,
    message: Option<string>,
    email: Option<string>,
    subject: Option<string>,
    media: Option<seq<string>>,
    deliveryDate: Option<Time>,
    isDelivered: Option<bool>,
    createdAt: Option<Time>)

  function Pick<T>(update: Option<T>, current: T): T {
    if update == None then current else update.value
  }

  /** `$set` of the body's paths: each path the body sets is replaced, the rest kept. */
  function Merge(c: Capsule, p: Patch): (r: Capsule)
    ensures r.id == c.id
    ensures p == Patch(None, None, None, None, None, None, None, None, None) ==> r == c
    ensures p.user == None ==> r.user == c.user
    ensures p.user != None ==> r.user == p.user.value
    ensures p.title == None ==> r.title == c.title
    ensures p.title != None ==> r.title == p.title.value
    ensures p.message == None ==> r.message == c.message
    ensures p.message != None ==> r.message == p.message.value
    ensures p.email == None ==> r.email == c.email
    ensures p.email != None ==> r.email == p.email.value
    ensures p.subject == None ==> r.subject == c.subject
    ensures p.subject != None ==> r.subject == p.subject.value
    ensures p.media == None ==> r.media == c.media
    ensures p.media != None ==> r.media == p.media.value
    ensures p.deliveryDate == None ==> r.deliveryDate == c.deliveryDate
    ensures p.deliveryDate != None ==> r.deliveryDate == p.deliveryDate.value
    ensures p.isDelivered == None ==> r.isDelivered == c.isDelivered
    ensures p.isDelivered != None ==> r.isDelivered == p.isDelivered.value
    ensures p.createdAt == None ==> r.createdAt == c.createdAt
    ensures p.createdAt != None ==> r.createdAt == p.createdAt.value
  {
    Capsule(c.id, Pick(p.user, c.user), Pick(p.title, c.title), Pick(p.message, c.message),
            Pick(p.email, c.email), Pick(p.subject, c.subject), Pick(p.media, c.media),
            Pick(p.deliveryDate, c.deliveryDate), Pick(p.isDelivered, c.isDelivered),
            Pick(p.createdAt, c.createdAt))
  }

  /** The store after an update request. */
  function AfterUpdate(m: map<Id, Capsule>, id: Id, user: UserId, p: Patch): (r: map<Id, Capsule>)
    ensures r.Keys == m.Keys
    ensures forall k :: k in m && k != id ==> r[k] == m[k]
    ensures FindOwned(m, id, user) == None ==> r == m
    ensures FindOwned(m, id, user) != None ==> r[id] == Merge(m[id], p)
  {
    match FindOwned(m, id, user)
    case None => m
    case Some(c) => m[id := Merge(c, p)]
  }

  /** The store after a delete request. */
  function AfterDelete(m: map<Id, Capsule>, id: Id, user: UserId): (r: map<Id, Capsule>)
    ensures r.Keys == if FindOwned(m, id, user) == None then m.Keys else m.Keys - {id}
    ensures forall k :: k in r ==> r[k] == m[k]
  {
    if FindOwned(m, id, user) == None then m else m - {id}
  }

  /**
   * PUT: merge the body into the caller's capsule and return the updated
   * document; 404 and no change otherwise. Nothing checks `isDelivered`.
   */
  method Update(store: CapsuleStore, id: Id, user: UserId, patch: Patch) returns (reply: Reply)
    requires store.Valid()
    modifies store`records
    ensures store.Valid()
    ensures store.records == AfterUpdate(old(store.records), id, user, patch)
    ensures FindOwned(old(store.records), id, user) == None ==> reply == NotFound
    ensures FindOwned(old(store.records), id, user) != None ==>
              reply == Found(Merge(old(store.records)[id], patch))
  {
    var found := FindOwned(store.records, id, user);
    if found == None {
      return NotFound;
    }
    var updated := Merge(found.value, patch);
    store.Save(updated);
    reply := Found(updated);
  }

  /** DELETE: remove the caller's capsule; 404 and no change otherwise. */
  method Delete(store: CapsuleStore, id: Id, user: UserId) returns (reply: Reply)
    requires store.Valid()
    modifies store`records
    ensures store.Valid()
    ensures store.records == AfterDelete(old(store.records), id, user)
    ensures reply == if FindOwned(old(store.records), id, user) == None then NotFound else Removed
    ensures reply.Status() == 404 <==> FindOwned(old(store.records), id, user) == None
  {
    var found := FindOwned(store.records, id, user);
    if found == None {
      return NotFound;
    }
    store.DeleteById(id);
    reply := Removed;
  }

  /** A delete by one user leaves every other user's capsules as they were. */
  lemma DeleteIsolation(m: map<Id, Capsule>, id: Id, user: UserId, other: UserId)
    requires WellKeyed(m) && other != user
    ensures OwnedBy(AfterDelete(m, id, user), other) == OwnedBy(m, other)
  {
    if FindOwned(m, id, user) != None {
      OwnedByAfterRemove(m, id, other);
      assert m[id] !in OwnedBy(m, other);
    }
  }

  /** A successful delete removes exactly that capsule from the caller's list. */
  lemma DeleteRemovesExactlyOne(m: map<Id, Capsule>, id: Id, user: UserId)
    requires WellKeyed(m) && FindOwned(m, id, user) != None
    ensures OwnedBy(AfterDelete(m, id, user), user) == OwnedBy(m, user) - {m[id]}
    ensures m[id] in OwnedBy(m, user)
  {
    OwnedByAfterRemove(m, id, user);
  }

  /**
   * An update that does not hand the capsule to `other` leaves `other`'s
   * capsules as they were.
   */
  lemma UpdateIsolation(m: map<Id, Capsule>, id: Id, user: UserId, p: Patch, other: UserId)
    requires WellKeyed(m) && other != user
    requires p.user != Some(other)
    ensures OwnedBy(AfterUpdate(m, id, user, p), other) == OwnedBy(m, other)
  {
    var after := AfterUpdate(m, id, user, p);
    forall c | c in OwnedBy(after, other) ensures c in OwnedBy(m, other) {
      var k :| k in after && after[k].user == other && c == after[k];
      assert k != id || FindOwned(m, id, user) == None;
    }
    forall c | c in OwnedBy(m, other) ensures c in OwnedBy(after, other) {
      var k :| k in m && m[k].user == other && c == m[k];
      assert k in after && after[k] == c;
    }
  }

  /**
   * The body may set `user`: an update that does so moves the capsule to
   * another user, after which its former owner gets 404 for it.
   */
  lemma UpdateCanTransferOwnership(m: map<Id, Capsule>, id: Id, user: UserId, p: Patch, other: UserId)
    requires FindOwned(m, id, user) != None && p.user == Some(other) && other != user
    ensures FindOwned(AfterUpdate(m, id, user, p), id, user) == None
    ensures FindOwned(AfterUpdate(m, id, user, p), id, other) == Some(Merge(m[id], p))
  {
  }

  /** Repeating the same update changes nothing more. */
  lemma UpdateIsIdempotent(m: map<Id, Capsule>, id: Id, user: UserId, p: Patch)
    ensures AfterUpdate(AfterUpdate(m, id, user, p), id, user, p) == AfterUpdate(m, id, user, p)
  {
    var once := AfterUpdate(m, id, user, p);
    if FindOwned(m, id, user) != None && FindOwned(once, id, user) != None {
      assert Merge(once[id], p) == once[id];
    }
  }

  /**
   * Update has no `isDelivered` guard: a body with `isDelivered: false` makes a
   * delivered capsule whose date has passed due again, so the next cycle mails
   * it a second time.
   */
  lemma UpdateCanReopenDelivered(m: map<Id, Capsule>, id: Id, user: UserId, p: Patch, now: Time)
    requires FindOwned(m, id, user) != None && m[id].isDelivered && m[id].deliveryDate <= now
    requires p.isDelivered == Some(false) && p.deliveryDate == None
    ensures id !in EmailScheduler.DueIds(m, now)
    ensures id in EmailScheduler.DueIds(AfterUpdate(m, id, user, p), now)
  {
  }

  /**
   * Create does not require a future date: the new capsule is due at every
   * tick at or after its delivery date, and at no tick before it.
   */
  lemma CreatedCapsuleDueFromItsDate(m: map<Id, Capsule>, id: Id, user: UserId, d: Draft,
                                     media: seq<string>, now: Time, tick: Time)
    ensures var m' := m[id := CapsuleFromDraft(id, user, d, media, now)];
            id in EmailScheduler.DueIds(m', tick) <==> d.deliveryDate <= tick
  {
  }
}
