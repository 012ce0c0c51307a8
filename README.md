# TimeCapsule capsule lifecycle, in Dafny

TimeCapsule lets a signed-in user write a message ("time capsule") that is
emailed to a chosen address once its delivery date has passed. This project
models the server-side lifecycle of a capsule and the dashboard's list rules:

- **TimeCapsule** (`time_capsule.dfy`): the capsule record with its schema
  defaults, the capsule collection as a class holding a `map<Id, Capsule>`,
  and the model's static `removeCapsule`.
- **EmailScheduler** (`email_scheduler.dfy`): one tick of the delivery job.
  `now` is read once. The job selects every capsule with
  `deliveryDate <= now` and `isDelivered == false`. For each one in turn it
  sends the mail and then sets and saves `isDelivered`. A send that throws
  ends the tick. The mail transport is an `Outbox` whose `Send` may fail and
  logs the mails it accepted.
- **CapsuleRoutes** (`capsule_routes.dfy`): the owner-scoped HTTP handlers.
  - Create checks the required fields in order, then the date.
  - List returns the caller's capsules, newest first.
  - Get, update and delete each match on `(id, owner)`.
- **Dashboard** (`dashboard.dfy`): the rules of the dashboard page.
  - The 80-character message preview.
  - The read-more toggle.
  - The delivered/scheduled label.
  - The list filter applied after a delete.
- **Wrappers** (`wrappers.dfy`): `Option` and `Result`.

The delivery job has no claim or lease step: it reads the due capsules and
then writes them back one by one. In the source, two overlapping ticks could
therefore both send the same capsule; the model covers a single tick only
(see "Left out").

The model also proves some behaviours the handlers permit.
- An update may set `user`, which moves a capsule to another owner
  (`UpdateCanTransferOwnership`).
- An update may clear `isDelivered`, which makes a delivered capsule due again
  so that the next tick mails it a second time (`UpdateCanReopenDelivered`).
- Create accepts a delivery date in the past; such a capsule is due at the
  next tick (`CreatedCapsuleDueFromItsDate`).

## Model

| member | source | states |
|---|---|---|
| TimeCapsule.SchemaComplete | server/models/TimeCapsule.js:9-25 | the schema's required string paths (title, message, email, subject) are all non-empty |
| TimeCapsule.NewCapsule | server/models/TimeCapsule.js:3-42 | a new document has `isDelivered` false and `createdAt` equal to the creation time; every other field is the one supplied |
| TimeCapsule.OwnedByAfterRemove | server/models/TimeCapsule.js:58 | removing one identifier removes exactly that document from its owner's capsules and nothing from anyone else's |
| TimeCapsule.CapsuleStore.NewId | server/routes/capsules.js:40-48 | a new document gets an identifier not yet in the collection |
| TimeCapsule.CapsuleStore.Save | server/jobs/emailScheduler.js:16 | `save()` stores the document under its own identifier and changes no other record |
| TimeCapsule.CapsuleStore.DeleteById | server/models/TimeCapsule.js:58 | `findByIdAndDelete` removes that identifier and nothing else |
| TimeCapsule.CapsuleStore.RemoveCapsule | server/models/TimeCapsule.js:45-64 | a missing id fails with "Time capsule not found"; another user's capsule fails with "Not authorized to delete this capsule"; existence is checked first; both failures delete nothing; otherwise exactly that record is removed and the success message returned |
| EmailScheduler.MailOf | server/jobs/emailScheduler.js:13 | the mail goes to the capsule's email, with its title (not its `subject` field) as subject line and its message as text |
| EmailScheduler.Outbox.Send | server/jobs/emailScheduler.js:13 | a send that returns logs exactly that mail; a failed send logs nothing |
| EmailScheduler.IsDue | server/jobs/emailScheduler.js:8-9 | the query filter: delivery date at or before `now` and not delivered |
| EmailScheduler.DueIds | server/jobs/emailScheduler.js:6-10 | an identifier is due exactly when its capsule exists, its delivery date is at or before `now` and it is not delivered |
| EmailScheduler.MarkDelivered | server/jobs/emailScheduler.js:15-16 | the records processed get `isDelivered` true and otherwise stay the same; every other record is unchanged; no record is added or removed |
| EmailScheduler.MailsFor | server/jobs/emailScheduler.js:12-13 | one mail per processed capsule, in processing order, each built from that capsule |
| EmailScheduler.DeliverOne | server/jobs/emailScheduler.js:13-16 | a capsule is marked delivered only when its send returned; after a failed send neither the store nor the log changes |
| EmailScheduler.RunCycle | server/jobs/emailScheduler.js:5-18 | the capsules processed are due and distinct; without a failed send every due capsule is processed; a failed send names a due capsule that stays unprocessed; the store becomes `MarkDelivered` of the processed capsules and the log gains their mails in order |
| EmailScheduler.DueAfterMark | server/jobs/emailScheduler.js:7-16 | after a cycle, a capsule is due exactly when it was due before and was not processed |
| EmailScheduler.NothingDueAfterCompleteCycle | server/jobs/emailScheduler.js:7-16 | after a cycle with no failed send, nothing is due at the same `now` |
| EmailScheduler.UnsentCapsuleStaysDue | server/jobs/emailScheduler.js:12-16 | a due capsule the cycle did not reach is unchanged and still due, so the next tick retries it |
| EmailScheduler.NotDueUntouched | server/jobs/emailScheduler.js:7-10 | a capsule with a future date, or one already delivered, is not sent and not changed |
| EmailScheduler.FlagOnlyRises | server/jobs/emailScheduler.js:15-16 | every record after a cycle is the record before, or the record before with an unset `isDelivered` now set |
| EmailScheduler.NoDuplicatesBound | server/jobs/emailScheduler.js:12 | a duplicate-free list of capsules drawn from a set is no longer than the set |
| EmailScheduler.OneMailPerDelivery | server/jobs/emailScheduler.js:12-17 | each processed capsule occurs once in the processing order, and the mail at its position is its own |
| EmailScheduler.RunTwice | server/jobs/emailScheduler.js:5-18 | a second cycle at the same `now` after a cycle without failed sends sends nothing and changes nothing |
| CapsuleRoutes.FirstAbsentIsFirst | server/routes/capsules.js:20-26 | the field reported is missing or empty and every field before it is present; none is reported exactly when all are present |
| CapsuleRoutes.RequiredFieldsPresent | server/routes/capsules.js:20 | the required fields are title, subject, message, email and deliveryDate |
| CapsuleRoutes.Present | server/routes/capsules.js:22 | a field passes the check when it is in the body and not the empty string |
| CapsuleRoutes.FirstAbsent | server/routes/capsules.js:20-26 | a reported field is one of the checked fields and is missing or empty in the body |
| CapsuleRoutes.FirstMissing | server/routes/capsules.js:20-26 | the field-check loop returns the first absent field in check order, or none |
| CapsuleRoutes.MediaPaths | server/routes/capsules.js:38 | the media list is the uploaded paths in upload order, or empty when nothing was uploaded |
| CapsuleRoutes.Validate | server/routes/capsules.js:19-36 | an accepted request has every required field and a date that parses to the stored date; a rejection carries either "Invalid deliveryDate format" or "Missing required field: " followed by one of the required fields |
| CapsuleRoutes.ValidateOutcome | server/routes/capsules.js:19-36 | a request is rejected exactly when a required field is missing or the date does not parse; a rejection for a field names the first missing one; a body with a missing field is rejected with "Missing required field: " and the first missing field in check order, and a rejection for a field names only that first one; an accepted request carries every field, non-empty, and the parsed date |
| CapsuleRoutes.CapsuleFromDraft | server/routes/capsules.js:40-48 | the constructed document has the new identifier, the caller as owner, the request's strings and date, the uploaded paths, `isDelivered` false and `createdAt` now |
| CapsuleRoutes.CreatedCapsuleShape | server/routes/capsules.js:38-48 | a created capsule belongs to the caller, is undelivered, was created now, has the uploaded paths and satisfies the schema's required strings |
| CapsuleRoutes.Create | server/routes/capsules.js:10-58 | a rejected request gets 400 with the validation message and stores nothing; an accepted one adds exactly the new capsule under a fresh identifier and gets 201 |
| CapsuleRoutes.HeadIsNewest | server/routes/capsules.js:63 | the first capsule of a newest-first list is at least as new as all the others |
| CapsuleRoutes.NewestFirstCons | server/routes/capsules.js:63 | putting a capsule at least as new as the whole list in front keeps the list newest first |
| CapsuleRoutes.InsertNewestFirst | server/routes/capsules.js:63 | inserting a capsule keeps the list newest first and adds exactly that capsule |
| CapsuleRoutes.List | server/routes/capsules.js:61-69 | the listing holds each of the caller's capsules exactly once and nobody else's, ordered by `createdAt` descending |
| CapsuleRoutes.FindOwned | server/routes/capsules.js:74 | a capsule is found exactly when the identifier exists and the caller owns it |
| CapsuleRoutes.Get | server/routes/capsules.js:72-83 | the capsule is returned exactly when id and owner both match; otherwise 404, also for another user's capsule |
| CapsuleRoutes.Merge | server/routes/capsules.js:88-92 | the identifier never changes; every path the body sets takes the body's value, and every path it leaves out keeps the stored value |
| CapsuleRoutes.AfterUpdate | server/routes/capsules.js:88-95 | no record is added or removed and every other record is unchanged; without a match on id and owner the store is unchanged; with one, the matched record becomes the merged one |
| CapsuleRoutes.Update | server/routes/capsules.js:86-101 | the body is merged only into the caller's matching capsule, which is returned; otherwise 404 and no change |
| CapsuleRoutes.AfterDelete | server/routes/capsules.js:106-109 | only the record matching id and owner is removed, and every remaining record is unchanged |
| CapsuleRoutes.Delete | server/routes/capsules.js:104-115 | only the caller's matching capsule is removed; otherwise 404 and no change |
| CapsuleRoutes.DeleteIsolation | server/routes/capsules.js:106 | a delete leaves every other user's capsules as they were |
| CapsuleRoutes.DeleteRemovesExactlyOne | server/routes/capsules.js:106-110 | a successful delete removes exactly that capsule from the caller's capsules |
| CapsuleRoutes.UpdateIsolation | server/routes/capsules.js:88-92 | an update that does not hand the capsule to another user leaves that user's capsules as they were |
| CapsuleRoutes.UpdateCanTransferOwnership | server/routes/capsules.js:88-92 | a body that sets `user` moves the capsule to that user, and its former owner then gets 404 for it |
| CapsuleRoutes.UpdateIsIdempotent | server/routes/capsules.js:88-92 | repeating an update changes nothing more |
| CapsuleRoutes.UpdateCanReopenDelivered | server/routes/capsules.js:88-96 | with no `isDelivered` guard, a body setting it to false makes a delivered capsule whose date has passed due again |
| CapsuleRoutes.CreatedCapsuleDueFromItsDate | server/routes/capsules.js:28-48 | a created capsule is due at every tick at or after its delivery date, past dates included, and at no earlier tick |
| Dashboard.Preview | client/src/pages/Dashboard.js:458-462 | an expanded card shows the whole message; a collapsed card shows the first 80 characters and "..." for a longer message, and the message itself otherwise |
| Dashboard.HasReadMore | client/src/pages/Dashboard.js:465 | the read-more button is shown only for a message whose collapsed preview was cut to 83 characters; without it the collapsed card shows the whole message |
| Dashboard.PreviewBounds | client/src/pages/Dashboard.js:458-465 | a collapsed preview is at most 83 long; it is exactly 83 long and begins with the message's first 80 characters when there is a read-more button; when there is no button, expanding changes nothing |
| Dashboard.ToggleCaption | client/src/pages/Dashboard.js:480 | the button reads "Show less" exactly when the card is expanded, "Read more" otherwise |
| Dashboard.StatusLabel | client/src/pages/Dashboard.js:516 | the label is "Delivered" exactly when the capsule is delivered, "Scheduled" exactly when it is not |
| Dashboard.Toggled | client/src/pages/Dashboard.js:106-108 | toggling the expanded card collapses it; toggling any other card expands that one |
| Dashboard.ToggleTwiceRestores | client/src/pages/Dashboard.js:106-108 | toggling the same card twice restores the previous state when no other card was expanded; when another card was expanded, two toggles leave no card expanded |
| Dashboard.Without | client/src/pages/Dashboard.js:100 | the filtered list keeps only entries from the list, none with the deleted id |
| Dashboard.WithoutCounts | client/src/pages/Dashboard.js:100 | every entry with the deleted id is gone; every other entry is kept as often as it occurred |
| Dashboard.WithoutAppend | client/src/pages/Dashboard.js:100 | the filter distributes over concatenation, so kept entries stay in their original order |
| Dashboard.WithoutAbsent | client/src/pages/Dashboard.js:100 | a list without that id is left unchanged |
| Dashboard.WithoutKeepsNewestFirst | client/src/pages/Dashboard.js:100 | filtering a newest-first list keeps it newest first |
| Dashboard.LocalDeleteMatchesRefetch | client/src/pages/Dashboard.js:99-100 | after a delete the server accepted, the filtered list holds the same capsules, newest first, as a fresh listing of the server's store |
| Dashboard.LabelAfterCycle | client/src/pages/Dashboard.js:516 | after a delivery cycle every processed capsule shows "Delivered", and every other capsule keeps its label |
| Dashboard.DashboardView.constructor | client/src/pages/Dashboard.js:39-41 | the page starts with an empty list and no expanded card |
| Dashboard.DashboardView.Load | client/src/pages/Dashboard.js:57-58 | the page state holds the fetched list |
| Dashboard.DashboardView.ShownMessage | client/src/pages/Dashboard.js:458-462 | a card shows its full message only when it is the expanded one, and its preview otherwise |
| Dashboard.DashboardView.HandleDelete | client/src/pages/Dashboard.js:91-104 | an accepted delete replaces the list with the filtered list; a failed request leaves it unchanged |
| Dashboard.DashboardView.ToggleExpand | client/src/pages/Dashboard.js:106-108 | the expanded id becomes the toggled one, and every other card shows its collapsed preview |

## Left out

- The cron timer (one tick a minute) and ticks that overlap: one tick is modelled, with `now` as a parameter. Two overlapping ticks can both send the same capsule in the source; no member models that.
- EmailScheduler.RunCycle: the tick is atomic with respect to the request handlers. In the source the job yields at each `await` (the send and the save), so a PUT or DELETE can land between the due query and a capsule's save; the model does not capture that interleaving.
- The mail transport (`sendMail`): it is the abstract `Outbox.Send`, which may fail. A failure stands for the `await` throwing.
- The confirmation email sent after create: its failures are caught inside the helper, and its text depends on the locale (`toLocaleString`).
- `new Date(s)` and the `isNaN` check: an abstract `parse` parameter that returns an optional timestamp in milliseconds.
- Non-string body values. The server also parses JSON and URL-encoded bodies, so any field of a create or update request may arrive as a number, boolean, array or object. The body is modelled as a map of strings. So a falsy non-string value such as `"title": 0`, which the source rejects with 400, has no encoding here, and a non-string `deliveryDate`, which skips the parse branch, is not modelled.
- The Express, multer and auth middleware, `req.user`, the console logging, the database connection, and the 500 responses for database errors and identifier cast errors.
- Database write failures (`save`, `findOneAndUpdate` and `findOneAndDelete` throwing) are not modelled: every store operation succeeds.
- The order in which the database returns due capsules is unspecified: `RunCycle` takes them in an arbitrary order and reports the order it used.
- Ties in `createdAt` in the list sort: their order is unspecified by the database, so `List` promises only a non-increasing `createdAt`.
- ObjectId generation: a counter (`nextId`) that never reuses an identifier. Identifiers are compared by equality only.
- TimeCapsule.CapsuleStore.RemoveCapsule: the owner check is equality of user identifiers. The source compares `capsule.user.toString()` strictly with `userId`, so a caller passing an ObjectId rather than its string would get "Not authorized to delete this capsule" even as the owner; which form callers pass is outside this model. The lookup and the delete are two separate database calls in the source, and the model runs them as one step, so a change landing between them is not captured.
- The user login and registration routes (password hashing and tokens).
- Every React component, its rendering, styles and animation, the axios and localStorage calls, and the other pages.
- String lengths count Dafny characters, whereas JavaScript counts UTF-16 code units.
- CapsuleRoutes.Merge: only the `$set` of body paths is modelled. The body goes to the database unchanged, so update operators in it (`$unset`, `$push`, `$inc`, `$rename` and others) would also be applied; they are not modelled. An update runs no schema validators, so it may store empty strings. `_id` in a body is not modelled, and the body's values are taken as already cast to the schema's types.
- CapsuleRoutes.Validate: it does not model the schema's validation on save after the route's own checks pass. `CreatedCapsuleShape` shows that an accepted request always passes it.
