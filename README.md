# Guest registry and RSVP confirmation

A Dafny model of the wedding guest-list backend's core: the guest record of
`src/models/Guest.ts` (fields, defaults, the `trim` and `lowercase` setters,
the unique reservation code) and the handlers of
`src/controllers/guestController.ts` (create a guest with a generated
reservation code, confirm attendance by code and email, list all or only
confirmed guests, look a guest up by code, update and delete a guest).

Files:

- `guest.dfy`, module `GuestModel`: the `Guest` datatype (one constructor
  carrying name, code, maximum companions, confirmed flag, optional
  confirmation email, confirmed companion count and the two timestamps),
  `Trim` (JavaScript `String.prototype.trim`, with the full white-space and
  line-terminator set), `LowerCase`, the stored email form `NormalizeEmail`,
  the reservation-code alphabet and the code a draw of the generator spells,
  and `NewGuest`, the record `new Guest({...})` builds.
- `registry_spec.dfy`, module `RegistrySpec`: the collection as a value
  (`Store`: the guests in insertion order, the next id, a clock), the
  invariant every reachable store keeps (`Inv`), and one function per
  state-changing handler answering a `Step` (the reply, success or a
  `Failure`, and the new store), with the lemmas about them.
- `registry.dfy`, module `GuestController`: class `GuestRegistry`, whose
  fields are the collection; each handler is a method that changes the fields
  in place and is proved to answer and to leave the collection exactly as the
  matching `RegistrySpec` function says. The two listings are loops proved
  to return the ordering the queries ask for.

Modelling choices:

- The collection is a sequence. Its order does not decide any lookup: under
  the store invariant ids and codes are unique, so `findOne` and `findById`
  can only find the one guest holding them (`FoundIsOnly`), whichever order
  the store scans in. The listings are sorted by their timestamp, and
  in the model timestamps are distinct (see "## Left out" for equal stamps).
  Ids and the `createdAt` / `updatedAt`
  timestamps come from counters: every write takes one tick, so a later write
  has a later stamp.
- The random generator is a parameter: `CreateGuest` receives the drawn code.
  `GenerateReservationCode` maps six alphabet positions to the code, and
  `EveryCodeIsGenerated` / `GeneratedCodesDiffer` show the map hits every
  valid code and only once.
- Request fields are `Option`s. `None` stands for an absent field, and for
  `acompanantes_confirmados` also for one that `Number(...)` turns into
  `NaN`. `Some("")` is the empty string. In `updateGuest` an absent field
  leaves the stored value as it is. This assumes the store driver drops the
  update object's `undefined` keys, as current Mongoose versions do, rather
  than writing them as unset; the driver version is not part of this model.
- Rendering the QR image and sending the mail both come after the save. They
  are one boolean, `delivered`. When it is false the handler answers
  `NotificationFailed`, but the confirmation is kept.
- Failures carry no HTTP status. `MissingName`, `MissingCodeOrEmail`,
  `AlreadyConfirmed` and `InvalidCompanions` are the handlers' 400 answers.
  `CodeNotFound` and `GuestNotFound` are the 404 answers.
  `InvalidRecord`, `DuplicateCode` and `NotificationFailed` are errors the
  store or the mailer throws, which the handlers answer with 500.

In these cases the model follows the code:

- `max_acompanantes` has no lower bound in the schema, so creating or
  updating a guest with a negative maximum is accepted. Such a guest, while
  unconfirmed, refuses every confirmation with `InvalidCompanions`; once
  confirmed it answers `AlreadyConfirmed`, which is tested first.
- The QR image encodes only `FRONTEND_URL + "/invitacion/" + code`
  (guestController.ts:78-79), not the guest's name or the attendee count.
  The count of `n + 1` appears in the mail body.
- The update does not re-check the companion bound against an existing
  confirmation (`UpdateDoesNotRevalidateCompanions`).
- With `runValidators`, an update's validators run before the document is
  looked up. So a name that trims to nothing is refused as `InvalidRecord`
  even when no guest has that id.
- `createGuest` rejects only a missing or empty name itself. A name made only
  of white space passes that test, then fails the schema's `required` check
  after `trim`, so the answer is `InvalidRecord` (a 500).
- The mail is addressed to the email exactly as given. The stored
  `email_confirmacion` is the trimmed, lower-cased form.

## Model

| member | source | states |
|---|---|---|
| GuestModel.Trim | src/models/Guest.ts:13-17 | the stored name is `s` with white space stripped at both ends: the result neither starts nor ends with a space and sits in `s` between runs of spaces |
| GuestModel.TrimUnique | src/models/Guest.ts:16 | any trimmed middle of `s` surrounded by spaces is `Trim(s)`, so the contract of Trim determines it |
| GuestModel.TrimIdempotent | src/models/Guest.ts:16 | trimming a stored name again changes nothing |
| GuestModel.TrimEmptyIffAllSpace | src/models/Guest.ts:13-17 | a value trims to empty (and so fails `required`) exactly when it is all white space |
| GuestModel.LowerCase | src/models/Guest.ts:35 | same length, no upper-case letter left, each character equal to the input's up to case |
| GuestModel.LowerCaseUnique | src/models/Guest.ts:35 | the contract of LowerCase determines its result |
| GuestModel.LowerCasePreservesSpace | src/models/Guest.ts:34-35 | lower-casing neither creates nor removes white space |
| GuestModel.TrimLowerCaseCommute | src/models/Guest.ts:32-36 | trimming then lower-casing gives the same value as lower-casing then trimming, so the order in which the two setters run does not matter |
| GuestModel.NormalizeEmail | src/models/Guest.ts:32-36 | the stored email is the trimmed input lower-cased: trimmed, no upper-case letter, as long as `Trim(e)` and equal to it character by character up to case |
| GuestModel.NormalEmailIsFixed | src/models/Guest.ts:32-36 | an email is in stored form (trimmed, no upper-case letter) exactly when normalising it changes nothing |
| GuestModel.NormalizeEmailIdempotent | src/models/Guest.ts:32-36 | normalising a stored email again gives the same email |
| GuestModel.AlphabetLayout | src/controllers/guestController.ts:7-8 | the alphabet has 36 characters, A to Z then 0 to 9 |
| GuestModel.AlphabetIndex | src/controllers/guestController.ts:7-8 | every code character has a position in the alphabet holding it |
| GuestModel.GenerateReservationCode | src/controllers/guestController.ts:7-10 | a draw spells a code of length 6 with every character in A-Z, 0-9 |
| GuestModel.EveryCodeIsGenerated | src/controllers/guestController.ts:7-10 | every six-character code over the alphabet is spelled by some draw |
| GuestModel.GeneratedCodesDiffer | src/controllers/guestController.ts:7-10 | different draws spell different codes, so the generator is a bijection on draws |
| GuestModel.NewGuest | src/models/Guest.ts:12-43 | a new record is unconfirmed with no email and 0 confirmed companions, its name is the trimmed input, it keeps the given id, code and maximum, and both timestamps are the current tick |
| RegistrySpec.OrZero | src/controllers/guestController.ts:23 | the zero default of `max_acompanantes` here and of the companion count at line 55: an absent or non-numeric value becomes 0, a given 0 stays 0, a given non-zero value is returned as it is, and any non-zero result is the value given |
| RegistrySpec.FrontendBase | src/controllers/guestController.ts:78 | the base URL is never empty: the configured value when set and non-empty, otherwise `localhost:3000` |
| RegistrySpec.Confirmed | src/controllers/guestController.ts:73-75 | the confirmed record is marked confirmed with the normalised email, the count and a new update stamp, and every other field is the guest's own |
| RegistrySpec.CodesUnique | src/models/Guest.ts:18-22 | in a store keeping the invariant, two different positions hold different codes and different ids |
| RegistrySpec.FindFirst | src/controllers/guestController.ts:56 | `findOne`: the first guest matching the id or code, none earlier matches, and `None` exactly when no guest matches |
| RegistrySpec.FoundIsOnly | src/controllers/guestController.ts:270 | under the invariant a lookup finds exactly the one guest holding that id or code |
| RegistrySpec.Create | src/controllers/guestController.ts:12-26 | a missing or empty name is refused with the store unchanged; a white-space name is refused by the schema; a code already stored is refused (iff); a present, non-blank name with an unused code is accepted; on success exactly one guest is appended, unconfirmed, with the trimmed name, the drawn code and the given maximum or 0 when absent; the invariant is kept |
| RegistrySpec.Confirm | src/controllers/guestController.ts:46-79 | a missing code or email is refused; an unsaved answer leaves the store unchanged; on success the answered guest is in the store, holds the given code, is confirmed with the normalised email and the requested count `n`, `0 <= n <= max`, the mail goes to the given email announcing `n + 1` attendees, with the QR target `base + "/invitacion/" + code`; a saved confirmation answers success iff delivery succeeded; the invariant is kept |
| RegistrySpec.ConfirmedKeepsInv | src/controllers/guestController.ts:73-76 | saving a confirmation with a non-negative count keeps the store invariant |
| RegistrySpec.ConfirmRejections | src/controllers/guestController.ts:56-72 | the answer is CodeNotFound iff no guest holds the code, AlreadyConfirmed iff its holder is confirmed, InvalidCompanions iff the holder is unconfirmed and the count is below 0 or above its maximum |
| RegistrySpec.ConfirmSaves | src/controllers/guestController.ts:68-76 | a confirmation is saved iff the code and email are present and an unconfirmed holder's maximum admits the count; the save replaces that guest alone (confirmed, normalised email, count, new stamp) and takes one tick |
| RegistrySpec.ConfirmedIsOnly | src/controllers/guestController.ts:56-67 | the guest a code lookup finds is the only one holding the code |
| RegistrySpec.SaveKeepsInv | src/controllers/guestController.ts:76 | saving a changed guest in place keeps the invariant when the new record keeps its code, id and creation time and is valid with a fresh stamp |
| RegistrySpec.Update | src/controllers/guestController.ts:214-225 | a failed update leaves the store unchanged; a name trimming to nothing is refused (iff); an unknown id is not found (iff); a known id with an acceptable name is updated; on success only the name (trimmed) and maximum given are replaced in that guest, its update stamp advances, and the invariant is kept |
| RegistrySpec.Delete | src/controllers/guestController.ts:242-250 | not found iff no guest has the id, with the store unchanged; otherwise that guest alone is removed, whatever its state, its name is answered, and no guest with the id remains |
| RegistrySpec.RemoveKeepsInv | src/controllers/guestController.ts:245 | removing one guest keeps the invariant and leaves no guest with its id |
| RegistrySpec.NewestFirstUnique | src/controllers/guestController.ts:182 | two strictly newest-first sequences of the same guests are equal |
| RegistrySpec.ListingIsUnique | src/controllers/guestController.ts:182 | a listing of a store by filter and sort field is determined by the store, given the distinct ticks of the model |
| RegistrySpec.ConfirmedListingWithinAll | src/controllers/guestController.ts:182-200 | every guest in the confirmed listing is confirmed and also in the full listing |
| RegistrySpec.DeletedGuestIsNotListed | src/controllers/guestController.ts:245-248 | after a delete, no listing shows the deleted guest and every other selected guest is still listed |
| RegistrySpec.KeptAfterRemoval | src/controllers/guestController.ts:245 | removing one position keeps every other guest in the collection |
| RegistrySpec.Apply | src/controllers/guestController.ts:12-250 | whatever a create (with a generated code), confirm, update or delete answers, the store it leaves keeps the invariant |
| RegistrySpec.CreateKeeps | src/controllers/guestController.ts:20-26 | a create leaves every stored guest's code, creation time and confirmation alone |
| RegistrySpec.ConfirmKeeps | src/controllers/guestController.ts:73-76 | a confirmation changes no other guest's code or creation time and alters no earlier confirmation |
| RegistrySpec.UpdateKeeps | src/controllers/guestController.ts:218-222 | an update changes no code, creation time or confirmation field |
| RegistrySpec.DeleteKeeps | src/controllers/guestController.ts:245 | every guest surviving a delete is unchanged in code, creation time and confirmation |
| RegistrySpec.RemoveKeeps | src/controllers/guestController.ts:245 | removing one position leaves every other guest's code, creation time and confirmation as they were |
| RegistrySpec.SurvivorsKeepCodeAndConfirmation | src/models/Guest.ts:18-36 | no request changes a surviving guest's code or creation time, and none undoes or alters a confirmation |
| RegistrySpec.RetryAfterNotificationFailure | src/controllers/guestController.ts:73-159 | when the mail fails the store is the same as when it succeeds, and confirming the same code again is refused as AlreadyConfirmed with nothing changed |
| RegistrySpec.DeliveryAfterSave | src/controllers/guestController.ts:76-159 | the outcome of delivery does not change what is saved |
| RegistrySpec.ConfirmingConfirmed | src/controllers/guestController.ts:63-67 | confirming the code of a confirmed guest is refused as AlreadyConfirmed with the store unchanged |
| RegistrySpec.UpdateDoesNotRevalidateCompanions | src/controllers/guestController.ts:218-222 | lowering a confirmed guest's maximum below its confirmed count is accepted, leaving a confirmed guest with more companions than its maximum |
| RegistrySpec.NonNumericCompanionsCountAsZero | src/controllers/guestController.ts:55 | an absent or non-numeric count behaves exactly as 0 and is refused only by a guest with a negative maximum |
| GuestController.InsertNewestFirst | src/controllers/guestController.ts:198-200 | inserting a guest with a fresh stamp into a newest-first sequence keeps it newest first and adds exactly that guest |
| GuestController.GuestRegistry.constructor | src/models/Guest.ts:45 | an empty collection keeping the invariant |
| GuestController.GuestRegistry.CreateGuest | src/controllers/guestController.ts:12-26 | the answer and the new collection are those of `Create`, and the invariant is kept |
| GuestController.GuestRegistry.ConfirmAttendance | src/controllers/guestController.ts:46-159 | the answer and the new collection are those of `Confirm`, and the invariant is kept |
| GuestController.GuestRegistry.GetAllGuests | src/controllers/guestController.ts:180-183 | answers every guest exactly once, strictly newest-created first |
| GuestController.GuestRegistry.GetConfirmedGuests | src/controllers/guestController.ts:196-201 | answers exactly the confirmed guests, strictly most recently updated first |
| GuestController.GuestRegistry.GetGuestByCode | src/controllers/guestController.ts:267-278 | answers a guest iff one holds exactly that code, and then the only such guest; otherwise CodeNotFound |
| GuestController.GuestRegistry.UpdateGuest | src/controllers/guestController.ts:214-225 | the answer and the new collection are those of `Update`, and the invariant is kept |
| GuestController.GuestRegistry.DeleteGuest | src/controllers/guestController.ts:242-250 | the answer and the new collection are those of `Delete`, and the invariant is kept |

## Left out

- HTTP: status codes, response messages and JSON bodies. The failures are named, not numbered. The routes in `src/routes/guestRoutes.ts` are not part of this model. Those routes do not expose `getGuestByCode`, which is modelled anyway.
- The QR image and the HTML mail body. Only the URL the image encodes and the attendee total are modelled. Rendering and sending are one `delivered` input, because they go through libraries and an SMTP transport.
- `nanoid` randomness. The drawn code is an input to `CreateGuest`, and generator collisions are not modelled beyond the unique-code check.
- Server start-up, the database connection, the mail transport configuration and console logging (`src/server.ts`, `src/config/*`). These are I/O.
- Query operators in the request body. `confirmAttendance` passes `codigo_reserva` to `findOne` as given, so a JSON object such as `{"$ne": ""}` passes the presence test and is read by the store as an operator, which can match a guest whose code was never given. Request fields here are strings, so the model cannot express this; its lookups match codes by equality only.
- Store failures other than the schema and unique-index errors, such as a lost connection or a save that throws. Also casting errors from a malformed `_id`, and from non-string or non-number JSON values wherever they are cast rather than read as query operators. These are driver behaviour, not handler logic.
- Ids are natural numbers from a counter rather than ObjectIds, and timestamps are ticks rather than clock times.
- Update: a JSON `null` for `nombre_invitado` or `max_acompanantes` is sent to the store as a value, and the schema's `required` validator then refuses it, so the handler answers 500. In the model, `None` stands only for an absent field, which leaves the stored value as it is, so this case is not modelled. In `createGuest` and `confirmAttendance`, `null` behaves as absence (`!null`, `null || 0`, `Number(null) || 0`), which `None` covers.
- Equal timestamps. The store stamps `createdAt` / `updatedAt` with millisecond dates, so two writes in the same millisecond get equal stamps. The store then lists guests with equal stamps in an unspecified order. The model's ticks are distinct, so it does not capture this case. The strict newest-first order that `GetAllGuests` and `GetConfirmedGuests` ensure relies on distinct ticks. So do `NewestFirstUnique` and `ListingIsUnique` (a listing is determined by the store).
- Concurrency: two requests interleaving between `findOne` and `save` are not modelled. Every handler is one atomic step.
- OrZero: for the companion count, JavaScript `Number(...)` is not modelled. A fractional count, and the strings `Number` parses, are not distinguished from the integer the request gives. `None` covers every value that becomes `NaN` or `0`.
- OrZero: for the maximum, only absence and integers are modelled. `max_acompanantes || 0` also turns `NaN`, `""` and `false` into 0, and a string maximum would be cast by the schema.
- LowerCase: only the letters A to Z are lower-cased. JavaScript `toLowerCase` also maps other Unicode letters.
- The `_id`, `__v` and timestamp fields the store adds to every document appear only as `id`, `createdAt` and `updatedAt`.
