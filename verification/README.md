# Skill-exchange request lifecycle, modelled in Dafny

This project models the core of a skills-exchange web application. Members
ask each other for bilateral "skill exchanges", and each exchange moves
through a small status lifecycle (`Requested`, then `Active`, `Declined` or
`Cancelled`). The model has two halves:

- **Server** (`pwa-main/server.js`):
  - the create-request handler (`ExchangeRequest`);
  - the status-update handler with its ordered checks (`ExchangeStatus`);
  - the received and sent lists (`ExchangeLists`);
  - the profile update that replaces a profile's skill listing (`ProfileUpdate`).

  The exchange table is `ExchangeStore`: rows by `exchange_id` plus the
  serial counter. `ExchangeFlow` runs any sequence of create and
  status-update requests against it. It also models the direct-insert
  route `POST /api/exchange`, which writes rows with no checks at all.
- **Client** (`pwa-main/public/modules/exchange.js`):
  - the auto-keyed `pending` store and the submit handler, which queues a
    request when the device is offline or the POST throws (`PendingQueue`);
  - the `syncPending` pass that replays the queue (`SyncPending`).

Effects are parameters:
- the database is a value (`Store`, `Directory`);
- the caller's profile is an `Option<int>`;
- timestamps are an opaque `now`;
- connectivity is a boolean;
- the network is an oracle: `Reply` for one POST, `seq<Reply>` for a pass,
  with one reply per post in order.

Ids in request bodies are `Option<int>`. `None` means absent, and the number 0
is falsy like an absent id.

## Behaviour worth noting

- `POST /api/exchange/request` has no login guard (server.js:346-352). A
  request without a session fails the field check and gets 400 "Missing
  required fields (user, profile, or skills)".
- On that route, a caller whose account has no profile gets 400 "You must
  create your profile first." (server.js:360-362).
- No store constraint on the two parties is visible in the code. The create
  route refuses a self-exchange itself (server.js:366-370). The
  direct-insert route `POST /api/exchange` (server.js:302-343) checks
  nothing, so it can write one (see Findings).
- Status updates never read the current status (server.js:505-508). A
  `Declined` or `Cancelled` exchange can be set again
  (`ExchangeStatus.TerminalStatusOverwritten`).
- The received and sent queries inner-join both parties' profile rows
  (server.js:422-423, 452-453). An exchange whose party profile is gone is
  listed nowhere (`ExchangeLists.Joined`).

## Model

| member | source | states |
|---|---|---|
| ExchangeStore.Insert | pwa-main/server.js:381-392 | a new row gets a key not used before; existing rows are kept, and the store stays valid (every key below the serial counter) |
| ExchangeStatus.ParseTarget | pwa-main/server.js:471-473 | only the texts `Cancelled`, `Declined`, `Active` are accepted, each as the status of that name; `Requested` and every other text is refused |
| ExchangeStatus.Authorize | pwa-main/server.js:493-503 | the handler's three ordered party checks agree with the transition table `Permitted` (recipient may set any target, initiator only `Cancelled`); each 403 variant occurs exactly in its own case, and `Not authorized` only for `Cancelled` |
| ExchangeStatus.UpdateStatus | pwa-main/server.js:466-510 | 400 exactly for an unaccepted text, whether or not the id exists; 404 exactly for a valid text and an unknown id; success exactly when the table permits the caller, and otherwise the 403 variant the ordered checks pick; a success changes only the status of the target row |
| ExchangeStatus.UpdatePreservesInvariants | pwa-main/server.js:505-508 | a status update keeps the serial keys and keeps every row's two parties distinct |
| ExchangeStatus.InitiatorCannotAccept | pwa-main/server.js:497-499 | the initiator asking for `Active` gets 403 "Only the receiver can accept" |
| ExchangeStatus.OutsiderRefused | pwa-main/server.js:476-503 | a caller who is neither party, including one without a profile, gets a 403 for every accepted status |
| ExchangeStatus.EitherPartyMayCancel | pwa-main/server.js:501-508 | either party may set `Cancelled` |
| ExchangeStatus.StatusCheckedBeforeLookup | pwa-main/server.js:471-489 | for an unknown exchange id and any caller, every status text outside `Cancelled`, `Declined`, `Active` answers 400 and every one of those three answers 404; `Requested` and `Active` are the worked cases |
| ExchangeStatus.TerminalStatusOverwritten | pwa-main/server.js:505-508 | the recipient can turn a `Declined` exchange `Active`: the current status is not checked |
| ExchangeStatus.ReceiverAcceptsTestCase | pwa-main/tests/server.test.js:63-70 | profile 1, recipient of exchange 1 sent by profile 2, accepts it; only that row's status changes, to `Active` |
| ExchangeRequest.LocationFor | pwa-main/server.js:372-376 | the exchange location is the recipient's location when non-empty, else `Online`; never empty |
| ExchangeRequest.CreateRequest | pwa-main/server.js:346-392 | "missing fields" exactly when a value is absent or 0; "create your profile first" exactly when the account has no profile; "yourself" exactly when the target is the sender's own profile; otherwise a `Requested` row: sender is initiator, target is recipient, the given skills, location as above, start = end = now, parties distinct |
| ExchangeRequest.SubmitRequest | pwa-main/server.js:346-394 | a refusal writes nothing; a success inserts exactly the decided row under a fresh id and keeps the table free of self-exchanges |
| ExchangeRequest.SelfExchangeMessageSaysYourself | pwa-main/server.js:366-370 | the self-exchange refusal text contains "yourself" |
| ExchangeRequest.SelfExchangeTestCase | pwa-main/tests/server.test.js:73-81 | account 1 (profile 1) asking profile 1 for skills 2 and 3 is refused with 400, self-exchange |
| ExchangeRequest.SubmitSucceedsIff | pwa-main/server.js:350-370 | a request is stored exactly when all four values are truthy, the account has a profile, and the target is another profile |
| ExchangeLists.Received | pwa-main/server.js:406-425 | the received list is exactly the rows whose recipient is the caller, whose status is `Requested`, and whose two profiles exist, with their contents unchanged |
| ExchangeLists.Sent | pwa-main/server.js:436-455 | the sent list is exactly the rows whose initiator is the caller and whose two profiles exist, whatever their status |
| ExchangeLists.NoProfileSeesNothing | pwa-main/server.js:410-425 | a caller without a profile gets empty received and sent lists |
| ExchangeLists.ReceivedAndSentDisjoint | pwa-main/server.js:416-455 | in a table without self-exchanges, no row is in both of a caller's lists |
| ExchangeLists.CreatedRequestIsListed | pwa-main/server.js:381-455 | a newly created request is in the recipient's received list and in the sender's sent list, with status `Requested` |
| ExchangeLists.AnsweredRequestLeavesReceived | pwa-main/server.js:416-508 | after any successful status update, a cancel by the initiator included, the exchange is on nobody's received list; it stays on the sender's sent list with the new status |
| ExchangeFlow.Apply | pwa-main/server.js:346-515 | one create or status-update request keeps the table valid and never drops a row |
| ExchangeFlow.Run | pwa-main/server.js:346-515 | any sequence of create and status-update requests keeps the table valid |
| ExchangeFlow.RunKeepsPartiesDistinct | pwa-main/server.js:366-370 | no sequence of create and status-update requests produces a row whose initiator is its recipient |
| ExchangeFlow.ReachableStoresHaveDistinctParties | pwa-main/server.js:366-508 | every table reachable from the empty one through the create and status-update routes has initiator ≠ recipient in every row |
| ExchangeFlow.DirectInsert | pwa-main/server.js:302-343 | the direct-insert route adds exactly the body's row under a fresh key: the caller's two parties, both skills and the location, status `Requested`, both dates `now`; no value is checked; existing rows are kept |
| ExchangeFlow.DirectInsertWritesSelfExchange | pwa-main/server.js:302-343 | the body with profile 1 as both parties writes a self-exchange into an empty table; the row then shows in both of profile 1's lists |
| ExchangeFlow.RequestAcceptFlow | pwa-main/server.js:346-510 | profile 1 requests an exchange with profile 2; profile 2's received list then has just that row, as `Requested`; profile 2 accepts; profile 1's sent list then has just that row, as `Active` |
| ProfileUpdate.Inserts | pwa-main/server.js:224-230 | one skill-listing insert per skill, in the order given |
| ProfileUpdate.PlanUpdate | pwa-main/server.js:191-230 | 401 without a user; 400 "Invalid skills" exactly when skills is not an array or has a falsy entry; then the same for languages; 404 without a profile; otherwise the profile update, then one delete of the old listings, then the inserts in skills order |
| ProfileUpdate.WithoutProfile | pwa-main/server.js:222 | the delete keeps exactly the listings of other profiles |
| ProfileUpdate.UpdateProfile | pwa-main/server.js:191-232 | the handler fails exactly when validation fails, with validation's error |
| ProfileUpdate.SkillsOfWithout | pwa-main/server.js:222 | after the delete the profile has no listings, and other profiles keep theirs |
| ProfileUpdate.ExecuteInserts | pwa-main/server.js:224-230 | running the inserts appends the skills, in order, to the profile's listing only |
| ProfileUpdate.UpdateReplacesSkills | pwa-main/server.js:213-230 | after a successful update the profile's listing is exactly the given skills, in order; the listing rows of other profiles (skill, profile and languages) and the account table are unchanged; the profile row holds the new name and languages |
| ProfileUpdate.SkillListingTestCase | pwa-main/tests/server.test.js:84-106 | updating profile 1 with JavaScript, Node.js and React succeeds and lists exactly those three skills, in that order |
| PendingQueue.SaveOffline | pwa-main/public/modules/exchange.js:190-194 | adding an entry keeps every existing entry, appends the entry unvalidated under the store's next key, which then moves on so no key is handed out twice even after deletions, and keeps the store valid (keys increasing) |
| PendingQueue.Without | pwa-main/public/modules/exchange.js:229-231 | deleting a set of keys keeps exactly the items whose key is not in it |
| PendingQueue.Remove | pwa-main/public/modules/exchange.js:229-231 | deleting a key removes exactly that key; every other item is kept unchanged |
| PendingQueue.RemoveIdempotent | pwa-main/public/modules/exchange.js:229-231 | deleting a key twice is deleting it once |
| PendingQueue.WithoutKeepsValid | pwa-main/public/modules/exchange.js:229-231 | deletions keep the store's keys increasing |
| PendingQueue.Submit | pwa-main/public/modules/exchange.js:17-45 | offline: the entry is queued, nothing is sent, "Saved offline"; online: a POST is sent; a thrown POST queues the entry; an `ok` shows "Exchange request sent!"; a rejection shows its error text or the default, and neither queues anything |
| PendingQueue.SubmitQueuesAtMostOne | pwa-main/public/modules/exchange.js:17-45 | a submit keeps the existing entries and adds one entry exactly when offline or the POST threw, none otherwise |
| SyncPending.ToNumber | pwa-main/public/modules/exchange.js:216-220 | a decimal numeral gives a finite non-negative number, the empty text gives 0, and any other text gives NaN |
| SyncPending.ToPayload | pwa-main/public/modules/exchange.js:216-220 | each of the three posted values is a finite number exactly when its text is a decimal numeral (or empty); an id's decimal text is posted as that id |
| SyncPending.ToNumberDecimal | pwa-main/public/modules/exchange.js:216-220 | converting an id's decimal text gives back the id |
| SyncPending.ReplayedIdsAreNumbers | pwa-main/public/modules/exchange.js:216-220 | an entry holding decimal ids is posted with those ids as numbers |
| SyncPending.Payloads | pwa-main/public/modules/exchange.js:213-227 | one posted body per snapshot item, in snapshot order, each the item's values as numbers |
| SyncPending.CountAccepted | pwa-main/public/modules/exchange.js:228-232 | the count of `ok` replies is at most the number of posts |
| SyncPending.AcceptedKeys | pwa-main/public/modules/exchange.js:228-231 | the keys deleted are among the snapshot's keys |
| SyncPending.Drain | pwa-main/public/modules/exchange.js:211-240 | deleting the keys one at a time leaves the same store as deleting all `ok` keys at once; the count is the number of `ok` replies; each snapshot item is posted exactly once, in order |
| SyncPending.DrainStep | pwa-main/public/modules/exchange.js:228-231 | deleting one key and then the later keys equals one deletion of all of them |
| SyncPending.AcceptedKeysMembership | pwa-main/public/modules/exchange.js:228-231 | a key is deleted exactly when some snapshot item with that key got `ok` |
| SyncPending.AcceptedKeysCount | pwa-main/public/modules/exchange.js:228-232 | with distinct keys, the number of keys deleted equals the number of `ok` replies |
| SyncPending.Sync | pwa-main/public/modules/exchange.js:197-249 | an empty store changes nothing and shows no notice; otherwise each item is posted once, in key order, as numbers; an item's key is deleted exactly when its post got `ok`; items are never modified or added; `synced` equals the number of keys deleted and is at most the snapshot size; a notice with that count appears exactly when it is positive |
| SyncPending.AllKeysDecided | pwa-main/public/modules/exchange.js:228-239 | in a valid store, an item's key is deleted exactly when its own post got `ok` |
| SyncPending.DrainLeavesOthers | pwa-main/public/modules/exchange.js:199-231 | a pass never deletes an entry that is not in its snapshot |
| SyncPending.FailedItemsStay | pwa-main/public/modules/exchange.js:233-239 | rejected items and items whose post threw stay queued, unchanged |
| SyncPending.OfflineRoundTrip | pwa-main/public/modules/exchange.js:18-239 | an entry saved offline into an empty store is posted once, as numbers, at the next pass; it is gone from the store, with a notice shown, exactly when that post got `ok` |

## Left out

- SQL, the `pg` pool, Express routing and sessions are not modelled. The tables are values, and the session's account and the caller's profile are parameters.
- The `requireLogin` 401 answers of the list and status routes are left out. The caller is taken as signed in.
- The 500 "Server error" answers for database failures are left out. Among them is a body id that is not a number.
- List rows are modelled as exchange rows. The joined columns (party names, skill names) are left out.
- Registration, login, profile reading and search are left out. They call database functions whose source is not part of this model, or only read tables.
- ExchangeFlow.DirectInsert: takes every body value as given. Absent values, which the route would insert as NULL or which would make the insert fail, are not modelled. The route is also not an `Op` of `ExchangeFlow.Run`, because the invariant proved over runs holds only for the checked routes.
- The `language[]` cast of the inserted listings is not checked; a bad value there would be a database error.
- IndexedDB, `fetch` and `navigator.onLine` are not modelled as such. They become the queue value, the reply oracle and a boolean.
- The 1.5-second modal close and the 3-second notice clearing are UI timers and are left out.
- The notice records only the count; its text "Synced N pending items." is not built.
- A missing status element (`if (status)`) is UI and is left out.
- Overlapping passes from repeated `online` events are not modelled: a pass is taken as atomic. The code has no guard against two passes running at once, so no single-flight property is claimed.
- SyncPending.ToNumber: models JavaScript's `Number` only for the empty text and decimal digit strings. Leading or trailing whitespace, signs, fractions, exponents and hex forms give a number in JavaScript but `NaN` here. Digit strings are read as exact naturals, whereas JavaScript rounds values above 2^53 and turns very long ones into `Infinity`. The form's values are serial ids written in decimal, so neither case arises for them.
- JSON values of other types are not modelled. Ids are integers. Skill and language entries are strings or absent; a truthy non-string entry is not modelled.
- `backend/`, `auth.js` and the i18n tables are left out. They hold plumbing and UI code; `backend/public/app.js`'s `syncPending` is a stub that sends nothing.
- `Full website/` is left out. Its `public/main.js:83-102` calls `syncPending` without awaiting it on every `online` event (when the status element exists), which is how passes can overlap.

## Findings

| source | as written | input that shows it | evidently intended | confidence | as-written member | corrected member |
|---|---|---|---|---|---|---|
| pwa-main/server.js:302-343 | `POST /api/exchange` inserts the body's row with no login guard, no field check and no self-exchange check | body `{profile_id_1: 1, profile_id_2: 1, skill_id_1: 2, skill_id_2: 3, location: "Online"}` without a session | exchanges are written only with the create route's checks, so initiator ≠ recipient holds for every row | medium, not executed | ExchangeFlow.DirectInsertWritesSelfExchange | ExchangeFlow.RunKeepsPartiesDistinct |
