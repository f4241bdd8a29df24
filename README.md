# Event registration server — verified model

This project models the core of `server.js`, an Express server for event registration.
It keeps five process-wide collections in memory:

- `events`;
- `registrations`;
- `announcements`;
- `users`;
- `tokens`, a map from bearer token to user id.

Its request handlers check and update these collections in place. The model covers:

- the seeded store;
- the three payload validators;
- the bearer-token admin gate;
- signup, login and `GET /api/auth/me`;
- the event routes: read, create, update, and delete with cascade;
- listing an event's registrations and registering for an event;
- the status update and the registration check by e-mail;
- listing and creating announcements;
- the row and summary values of the participant spreadsheet export.

Layout:

- `text.dfy` (module `Text`): the JavaScript string primitives the handlers use: `trim`, ASCII `toLowerCase`/`toUpperCase`, `replace(/\D/g, '')`, `split(' ')`, and a direct test for the e-mail regular expression, proved equal to the expression's language.
- `records.dfy` (module `Records`): the stored records, the request bodies, and the `Result`/`Error` outcome. Each error kind carries the HTTP code the handler answers with (400, 401, 403, 404, 409, 500).
- `tables.dfy` (module `Tables`): the linear-scan lookups (`find`, `findIndex`), the `filter`s and counts, the store invariants, and the lemmas showing which updates keep them.
- `validation.dfy` (module `Validation`): `validateEventData`, `validateRegistrationData`, `validateAnnouncement` and the signup checks. Each is a pure function returning the field-to-message error map.
- `auth.dfy` (module `Auth`): `authorizationMiddleware` and the token lookup of `/api/auth/me`.
- `export.dfy` (module `Export`): the values written to the participant worksheet.
- `store.dfy` (module `Server`): class `Store` holds the five collections as fields. Each handler that changes them is a method with a `modifies` clause, and each read-only handler is a function. The middleware chains and the admission decision are pure functions that the methods apply.

The store invariants:

- `Valid()`: every registration and announcement refers to an existing event, stored capacities lie in [1, 10000], and every token names an existing user. Every handler keeps `Valid()`.
- `Admissible()`: no event holds more confirmed registrations than its capacity. Register, set-status, create and delete keep it. Update keeps it exactly when the new capacity covers the event's confirmed count.
- Every failing handler leaves the whole store unchanged.

Inputs the server takes from its environment are parameters of the handlers:

- `Date.now()` ids and ISO time stamps;
- the base64 tokens;
- the time value JavaScript's `Date` gives the event's date text (`dateValue`, `None` for an invalid date);
- local midnight (`todayStart`).

## Model

| member | source | states |
|---|---|---|
| Text.ToLower | server.js:505 | `toLowerCase` keeps the length, turns each capital letter into its small letter (code point + 32) and keeps every other character in place |
| Text.ToUpper | server.js:741 | `toUpperCase` keeps the length, turns each small letter into its capital (code point - 32) and keeps every other character in place |
| Text.Trim | server.js:70 | `trim` leaves no white space at either end; the result is empty exactly when the text is all white space; text without white space is unchanged |
| Text.Digits | server.js:125 | `replace(/\D/g, '')` keeps exactly the digits, each as often as in the input, and only digits |
| Text.Split | server.js:162 | `split(' ')` yields at least one piece and no piece holds the separator |
| Text.JoinSplit | server.js:162 | joining the pieces of a split gives back the header |
| Text.SplitJoin | server.js:162 | splitting a join of separator-free pieces gives back the pieces |
| Text.EmailCheckSound | server.js:115-118 | every address the direct test accepts matches `^[^\s@]+@[^\s@]+\.[^\s@]+$` |
| Text.EmailCheckComplete | server.js:115-118 | every address the expression matches passes the direct test |
| Text.EmailCheckMatchesPattern | server.js:115-118 | the direct test and the regular expression accept the same strings |
| Records.ParseStatus | server.js:532 | a status text is accepted exactly when it is `confirmed`, `pending` or `rejected`, and names the status it spells |
| Records.StatusNameRoundTrip | server.js:532 | every status survives a trip through its stored text |
| Tables.EventIndex | server.js:365 | `events.findIndex` by id: the first event with the id, or -1 exactly when none has it |
| Tables.RegistrationIndex | server.js:539 | `registrations.findIndex` by id: the first match, or -1 exactly when none |
| Tables.KeyIndex | server.js:477-479 | the first registration of the event with exactly the given e-mail, or -1 exactly when none |
| Tables.UserIndex | server.js:182 | `users.find` by id: the first match, or -1 exactly when none |
| Tables.UserIndexByEmail | server.js:227 | the first user whose lower-cased e-mail equals the lower-cased input, or -1 exactly when none |
| Tables.OfEvent | server.js:447 | `filter(r => r.eventId === id)` keeps exactly the registrations of the event |
| Tables.WithoutEvent | server.js:417 | `filter(r => r.eventId !== id)` keeps exactly the registrations of other events |
| Tables.FiltersPartition | server.js:417 | the registrations of an event and those of the other events together are all registrations, each once |
| Tables.AnnouncementsOf | server.js:625 | keeps exactly the announcements of the event |
| Tables.AnnouncementsWithout | server.js:418 | keeps exactly the announcements of other events |
| Tables.Tally | server.js:774-776 | the number of registrations with a status is at most the number of registrations |
| Tables.TallyExtremes | server.js:774-776 | a status count is zero exactly when no registration has the status, and the whole length exactly when all have it |
| Tables.ConfirmedCount | server.js:490-492 | an event's confirmed count is at most the number of registrations |
| Tables.ConfirmedCountZero | server.js:553-555 | an event's confirmed count is zero exactly when none of its registrations is confirmed |
| Tables.TallyPartition | server.js:769-777 | the confirmed, pending and rejected counts add up to the number of registrations |
| Tables.ConfirmedCountAppend | server.js:511 | appending a registration raises an event's confirmed count by one exactly when it is a confirmed registration of that event, and leaves the count otherwise |
| Tables.ConfirmedCountReplace | server.js:565 | rewriting a registration in place changes its event's confirmed count only by the change in its own status |
| Tables.ConfirmedCountWithout | server.js:417 | dropping one event's registrations zeroes its confirmed count and leaves every other event's count unchanged |
| Tables.AdmitKeepsCapacity | server.js:490-511 | appending a registration to an event with room keeps every event within capacity |
| Tables.StatusChangeKeepsCapacity | server.js:550-566 | a status change that confirms only when the event has room keeps every event within capacity |
| Tables.AddEventKeepsCapacity | server.js:346 | appending an event keeps every event within capacity |
| Tables.RemoveEventKeepsCapacity | server.js:414-418 | deleting an event with its registrations keeps every remaining event within capacity |
| Tables.UpdateMayExceedCapacity | server.js:376-383 | an update with an accepted capacity can leave an event with more confirmed registrations than its capacity |
| Tables.ReplaceEventKeepsCapacity | server.js:376-383 | an update keeps every event within capacity when the new capacity covers the event's confirmed count |
| Tables.ReplaceEventExceedsCapacity | server.js:376-383 | an update whose capacity is below the event's confirmed count leaves the store over capacity |
| Tables.RemoveEventKeepsReferences | server.js:414-418 | after the cascade every remaining registration and announcement refers to an existing event |
| Tables.AddRegistrationKeepsReferences | server.js:511 | appending a registration of an existing event keeps every reference |
| Tables.ReplaceRegistrationKeepsReferences | server.js:565-566 | rewriting a registration within its event keeps every reference |
| Tables.AddAnnouncementKeepsReferences | server.js:661 | appending an announcement of an existing event keeps every reference |
| Tables.AddUserKeepsTokens | server.js:241-242 | adding a user and a token for that user keeps every token naming an existing user |
| Tables.IssueTokenKeepsTokens | server.js:209 | a new token for an existing user keeps every token naming an existing user |
| Tables.StoredEmail | server.js:505 | `email.trim().toLowerCase()` is no longer than the input, has no capital letter, and is the lower-cased input when the input has no white space |
| Tables.StoredEmailIdempotent | server.js:505 | a stored e-mail is its own stored form |
| Tables.NormalizedKeyIndex | server.js:477-479 | the duplicate test on the stored form of the e-mail finds no match exactly when no registration of the event has that stored e-mail |
| Tables.NormalizedCheckKeepsEmailsUnique | server.js:477-479 | admitting only what the stored-form test passes keeps at most one registration per event and stored e-mail |
| Tables.FreshKeyKeepsEmailsUnique | server.js:477-511 | appending a registration whose event and e-mail pair is not stored keeps the pairs unique |
| Tables.WithoutEventKeepsEmailsUnique | server.js:417 | the delete cascade's filter keeps at most one registration per event and e-mail |
| Tables.ReplaceKeepsEmailsUnique | server.js:565-566 | rewriting a registration with the same event and e-mail keeps at most one registration per event and e-mail |
| Validation.ValidateEvent | server.js:66-94 | the error map only holds the name, description, date and capacity fields |
| Validation.EventNameRule | server.js:70-72 | the name is flagged exactly when its trimmed length is below 3, with the handler's message |
| Validation.EventDescriptionRule | server.js:74-76 | the description is flagged exactly when its trimmed length is below 10, with the handler's message |
| Validation.EventDateRule | server.js:78-88 | the date is flagged exactly when it is missing or denotes a moment before local midnight; an invalid date passes; each case has its own message |
| Validation.EventCapacityRule | server.js:90-94 | the capacity is flagged exactly when it lies outside [1, 10000], with one message per bound |
| Validation.ValidateEventAccepts | server.js:66-105 | the event validator passes exactly the bodies meeting all four rules |
| Validation.ValidateRegistration | server.js:107-127 | the error map only holds the name, e-mail and phone fields |
| Validation.RegistrationNameRule | server.js:111-113 | the name is flagged exactly when its trimmed length is below 2 |
| Validation.RegistrationEmailRule | server.js:115-120 | the e-mail is flagged exactly when the address check fails; a missing address has its own message |
| Validation.RegistrationPhoneRule | server.js:122-127 | the phone is flagged exactly when it does not hold exactly 10 digits among its characters; a missing phone has its own message |
| Validation.ValidateRegistrationAccepts | server.js:107-138 | the registration validator passes exactly the bodies whose trimmed name has at least 2 characters, whose e-mail matches the regular expression and whose phone holds 10 digits |
| Validation.ValidateAnnouncement | server.js:140-157 | the message is flagged exactly when its trimmed length is below 5, and nothing else is |
| Validation.ValidateSignup | server.js:217-221 | the error map only holds the name, e-mail and password fields |
| Validation.SignupRules | server.js:217-221 | signup flags a trimmed name below 2 characters, an e-mail failing the address check and a password below 6 characters, each exactly then, with its message |
| Validation.ValidateSignupAccepts | server.js:217-225 | signup validation passes exactly when all three fields pass |
| Validation.TrimKeepsEmail | server.js:235 | a well-formed address is unchanged by `trim`, so a stored user e-mail is the lower-cased input |
| Auth.BearerToken | server.js:161-172 | a token is read only from a header of the form `Bearer <token>` with no further space |
| Auth.BearerTokenOfHeader | server.js:161-172 | every header `Bearer <token>` with a space-free token yields that token |
| Auth.ReadToken | server.js:173 | `tokens[token]` on a plain object: the stored id for an own property other than `__proto__`, a non-id for a name inherited from `Object.prototype`, and nothing otherwise |
| Auth.TokenHolder | server.js:161-188 | malformed exactly when the header is not `Bearer <token>`; unknown exactly when the token reads as nothing or as the empty id; user not found exactly when it reads as an inherited property or as an id no user has; otherwise the first user with that id |
| Auth.HolderFoundWhenTokensResolve | server.js:173-188 | when every stored token names an existing user, "user not found" happens exactly for a token that reads an inherited `Object.prototype` property |
| Auth.InheritedNameUserNotFound | server.js:173-187 | `Bearer constructor`, with no such token issued, gets 401 "User not found" from both the admin gate and `/api/auth/me` |
| Auth.AdminGate | server.js:160-200 | passes exactly when the header's token names a stored admin; 401 for a malformed header, an unknown token or a missing user; 403 exactly for a non-admin holder |
| Auth.AdminGateAdmits | server.js:160-200 | an admin presenting one of their tokens in the `Bearer` form is let through |
| Auth.NonAdminForbidden | server.js:190-196 | a user who is not an admin, presenting one of their tokens and being the first user with their id, gets 403 |
| Auth.CurrentUser | server.js:272-288 | `/api/auth/me` returns the holder's profile without the password, or 401 |
| Export.StatusLabels | server.js:741 | the upper-cased status texts are `CONFIRMED`, `PENDING` and `REJECTED` |
| Export.StatusLabelReadsBack | server.js:741 | each status label, lower-cased, parses back as the status it shows |
| Export.StatusLabelInjective | server.js:741 | two statuses get the same label exactly when they are the same status |
| Export.ParticipantRow | server.js:734-743 | the participant at an index sits on row 5 + index with serial index + 1, holds the registration's name, e-mail and phone, and a label that reads back as its status |
| Export.ParticipantRows | server.js:734-743 | one row per registration, in order, each with its position's row and serial numbers, the registration's values and its status label |
| Export.Render | server.js:734-777 | one row per registration, then the summary one blank row below the last, its total the number of rows |
| Export.Summarize | server.js:769-777 | the summary sits on row 5 + n + 1 and its three status counts add up to the total |
| Export.RowsLayout | server.js:734-743 | one row per registration, in order, on rows 5 to 5 + n - 1, with serial number index + 1 and the registration's values |
| Export.LabelCountMatchesTally | server.js:734-777 | the number of rows showing a status label equals the number of registrations with that status |
| Export.SummaryMatchesRows | server.js:769-777 | each summary count equals the number of rows above it showing that status |
| Server.EventGuard | server.js:333 | the admin gate, then the event validator: passes exactly an admin's valid body, otherwise the first failure |
| Server.AnnouncementGuard | server.js:641 | the admin gate, then the announcement validator: passes exactly an admin's message of at least 5 trimmed characters |
| Server.Admit | server.js:463-509 | validation, then 404, then 409 with the existing registration, then 400 at full capacity, in that order; otherwise one confirmed registration with trimmed name and phone and trimmed lower-cased e-mail |
| Server.AdmitWithinCapacity | server.js:490-511 | an admitted registration raises its event's confirmed count by one, to at most the capacity, and keeps every event within capacity |
| Server.Admission | server.js:463-509 | as written: an admitted registration had no registration of the event with the raw incoming e-mail, and is stored under the trimmed, lower-cased e-mail |
| Server.CorrectedAdmission | server.js:463-509 | corrected: an admitted registration has no registration of the event under its own stored e-mail |
| Server.AdmissionDuplicatesStoredEmail | server.js:477-511 | whenever the raw test misses a registration of the event under the incoming e-mail's stored form, the handler as written admits a second one under that e-mail |
| Server.AdmissionAdmitsCaseVariant | server.js:477-511 | with `a@b.c` registered for event `1`, the handler as written admits `A@b.c`, and the store then holds two registrations of the event with one stored e-mail |
| Server.CorrectedAdmissionKeepsEmailsUnique | server.js:477-479 | the decision with the stored-form duplicate test keeps at most one registration per event and stored e-mail |
| Server.Store.constructor | server.js:27-62 | the two seed events, no registrations or announcements, only the default admin and no tokens; both invariants hold |
| Server.Store.AddEvent | server.js:346 | `events.push`: only the events change; references are kept, and the invariants too for an accepted capacity |
| Server.Store.ReplaceEvent | server.js:376 | `events[i] = e` under the same id: only the events change; the store stays within capacity exactly when the new capacity covers the confirmed count |
| Server.Store.RemoveEvent | server.js:414-418 | `splice` and the two `filter`s: only the three tables change; both invariants are kept, and so is at most one registration per event and e-mail |
| Server.Store.AddRegistration | server.js:511 | `registrations.push`: only the registrations change; the confirmed count rises by one exactly for a confirmed record; invariants kept under the handler's checks |
| Server.Store.ReplaceRegistration | server.js:565-566 | the in-place status write: only that registration changes; invariants kept when a confirmation had room; unique event and e-mail pairs kept when the e-mail is unchanged |
| Server.Store.AddAnnouncement | server.js:661 | `announcements.push`: only the announcements change; references kept for an existing event |
| Server.Store.IssueToken | server.js:207-211 | `generateTokenForUser`: the token now maps to the user id; nothing else changes |
| Server.Store.Signup | server.js:214-248 | 400 with the field map, then 409 when an e-mail matches ignoring case; otherwise one participant with trimmed name and lower-cased e-mail and a token for them; a failure changes nothing |
| Server.Store.Login | server.js:251-269 | 400 when a field is missing, 401 unless a user's e-mail matches ignoring case and the password is equal; then a token for that user; a failure changes nothing |
| Server.Store.GetEvent | server.js:308-330 | the first event with the id, or 404 exactly when none has it |
| Server.Store.CreateEvent | server.js:333-360 | the gate and validator failure, or one appended event with trimmed name and description; a failure changes nothing; invariants kept |
| Server.Store.UpdateEvent | server.js:363-397 | the gate and validator failure, then 404; otherwise the first event with the id rewritten, keeping its id and creation time; the store stays within capacity exactly when the new capacity covers the confirmed count |
| Server.Store.DeleteEvent | server.js:400-431 | the gate failure, then 404; otherwise the event removed with every registration and announcement of its id, the rest in order; a failure changes nothing; both invariants kept, and so is at most one registration per event and e-mail |
| Server.Store.EventRegistrations | server.js:436-460 | 404 exactly when the event is missing; otherwise exactly the registrations of the event |
| Server.Store.Register | server.js:463-525 | the admission decision as written; on success exactly one confirmed registration appended, the confirmed count rising by one and staying within capacity; a failure changes nothing; both invariants kept |
| Server.Store.SetStatus | server.js:528-580 | 400 for an unknown status before any lookup, then 404, then 500 when the event is gone and 400 at capacity, both only when newly confirming; otherwise only that registration's status and update time change; any status may follow any other; both invariants kept, and so is at most one registration per event and e-mail |
| Server.Store.CheckRegistration | server.js:583-609 | 400 exactly for a missing e-mail; otherwise the first registration of the event whose stored e-mail equals the lower-cased query, or none exactly when there is no such registration |
| Server.Store.EventAnnouncements | server.js:614-639 | 404 exactly when the event is missing; otherwise exactly the announcements of the event |
| Server.Store.CreateAnnouncement | server.js:641-677 | the gate and validator failure, then 404; otherwise one appended announcement with the trimmed message, reporting every registration of the event |
| Server.Store.ParticipantSheet | server.js:682-777 | 404 exactly when the event is missing; otherwise one row per registration, the summary total equal to their number and the confirmed count equal to both the capacity checks' count and the rows showing `CONFIRMED` |

## Left out

- `GET /api/events` (server.js:292-305): it returns the stored array unchanged, so there is nothing to decide.
- `GET /api/stats` (server.js:801-822): a read-only summary outside the registration engine. Its upcoming-events count depends on the clock and the time zone.
- The Express wiring is not modelled: CORS, body parsing, the error middleware, static files, the 404 fallback and `listen` (server.js:1-23, 826-859).
- The client `public/app.js` is not part of this model.
- The spreadsheet library's work is not modelled: merged cells, fonts, fills, widths, the title and detail lines, the file name and the binary encoding. Only the row and summary values are modelled.
- Export.ParticipantRow: the registration-date column is left out, because it is `toLocaleDateString` of the stored time stamp and depends on the locale.
- Validation.EventDateRule: the JavaScript `Date` parsing of the date text and of local midnight are inputs, not computed, because they depend on the runtime's clock and time zone.
- Validation.ValidateEvent: capacity is an integer in the model, so `CapacitiesInRange` and the capacity invariant hold only for integer capacities. The source also accepts strings, which `parseInt` converts when storing (server.js:342, 381). A string that is not a number passes both bound tests, because each comparison with NaN is false. `"abc"` is then stored as NaN, and `confirmedCount >= NaN` never holds, so the event admits without limit. `"99999x"` is stored as 99999 and `"0a"` as 0, both outside [1, 10000]. A fractional capacity passes too, and `parseInt` truncates it. These JSON types are not modelled.
- Text.ToLower: only the ASCII letters are mapped, while `toLowerCase` and `toUpperCase` map all of Unicode. This keeps the case mapping finite.
- Text.Trim: lengths count Unicode scalar values, while JavaScript counts UTF-16 code units. The two differ only for characters outside the Basic Multilingual Plane.
- Absent request fields and query parameters are modelled as the empty string; the source's checks treat an absent field and "" alike. Fields that are present but not strings, and repeated query parameters, are not modelled, and the source does not treat them like "". A number `name` makes `name.trim()` throw inside the validator middleware. An array `email` whose text form matches passes `emailRegex.test` and then throws at `email.toLowerCase()` in signup, which answers 500 "Signup failed".
- Ids, time stamps and tokens are supplied by the caller. `Date.now()` ids can collide, and the model asks for no freshness, so its lookups return the first record with an id, as `find` and `findIndex` do.
- The generic 500 branches of each route's `catch` are not modelled; no modelled operation throws in them. The one exception that can occur is the set-status capacity read of a vanished event, and it is modelled in `Server.Store.SetStatus`.
- Server.Store.IssueToken: it stores any caller-supplied token, while JavaScript ignores an assignment to `tokens.__proto__`. A generated token is base64 text and never contains `_`, so it is never `__proto__`; `Auth.ReadToken` reads `__proto__` as the inherited property whatever the map holds.
- The success codes 200 and 201 and the reply envelopes (`success`, `message`) are not modelled. `Unauthorized` carries the body's `error` text, and the middleware's separate `message` text is dropped.

## Findings

| source | as written | input that shows it | evidently intended | confidence | as-written member | corrected member |
|---|---|---|---|---|---|---|
| server.js:477-479 | the duplicate test compares the stored e-mails, which are trimmed and lower-cased, with the incoming e-mail exactly as typed | a registration stored as `a@b.c`, then a second request for the same event with `A@b.c` | compare with the incoming e-mail in its stored form, so that an event has at most one registration per lower-cased e-mail (the check-registration route already lower-cases its query) | not executed | Server.AdmissionAdmitsCaseVariant | Server.CorrectedAdmissionKeepsEmailsUnique |

`Server.Store.Register` follows the code and applies `Server.Admission`, the decision with the raw comparison. It keeps unique e-mails only for input that is already trimmed and lower-case. `Server.CorrectedAdmission` differs only in the duplicate test, which uses the stored form, and it keeps them for every input.
