# Employee directory (ctr_web): a verified model of its core logic

ctr_web is a small React/Redux application for managing employee records. It has a login and a
registration form, and a table that can be searched, filtered, sorted and paged. This Dafny project
models the logic underneath that interface:

- `EntityModel`, `Service` model the in-memory record store `EntityAPI`.
  It is a class over a sequence of records, with `all`, `get`, `delete`, `add` and `edit`.
- `Auth` models the mock authentication store `authAPI`.
  It is a class over the user list, with `login`, `register` and `logout`.
  Each Promise settles at once, with a `Result`.
- `ActionTypes`, `EntitiesReducer` model every Redux action and the `entities` reducer.
  The reducer is a pure function; it returns `Err` where the JavaScript would throw.
- `EntityActions` models the action creators.
  Each thunk is a method of a `Dispatcher` class (state, action log, store).
  Each method is tied to the specification function `Settle`: the actions dispatched, the final state and the value returned.
  A `shared` flag records when the state's list is the store's own array, as it is after a fetch, so that changes the store makes in place show in the state. Every dispatcher method keeps the invariant `Coherent`: while the list is shared, the state's list equals the store's. `delete` gives the store a new array and so ends the sharing.
- `UserReducer` models the session reducer and its behaviour over whole sequences of actions.
- `EntityValidation` models the constants, the custom tests, and the rules of the entity, registration and login schemas.
  Each field's rules are modelled as the list of messages of the rules that fail.
- `EnhancedTable` models the employee table.
  - The pure pipeline: visible columns, filter, comparator, sort, page.
  - The component state as a class whose methods are the event handlers.
- `Registration` models the sign-up form's input handler and its ordered pre-submit checks.
- `Wrappers`, `Text`, `Seqs` are helpers: `Option`/`Result`, the string operations of JavaScript the source uses (ASCII `toLowerCase`, `trim`, `includes`, `endsWith`, `<` on strings), and sequence utilities.

Facts about the entity store that the model keeps:

- `add` hands out the largest id plus one, so after the record with the largest id is deleted its id is handed out again (`Service.DeletedLargestIdIsReused`).
- The store has no email-uniqueness check, no error for a missing id and no `deleteMany`.
- `edit` on an absent id returns `null`.
- String lengths are JavaScript's: UTF-16 code units (`Text.JsLength`), so a character outside the Basic Multilingual Plane counts twice.

## Model

| member | source | states |
|---|---|---|
| Service.EntityApi.constructor | ctr_web/src/api/service.js:2-6 | The store starts with John Doe (1), Jane Smith (2) and Bob Johnson (3). |
| Service.EntityApi.All | ctr_web/src/api/service.js:8-10 | Returns the stored list itself and changes nothing. |
| Service.EntityApi.FindIndex | ctr_web/src/api/service.js:31 | The loop finds the first position holding the id, or -1 when none does. |
| Service.EntityApi.Get | ctr_web/src/api/service.js:12-15 | Finds a record iff one has the id; the one found is the first with that id. |
| Service.EntityApi.Delete | ctr_web/src/api/service.js:17-21 | The list becomes the records with another id. An absent id changes nothing. Unique ids stay unique. |
| Service.EntityApi.Add | ctr_web/src/api/service.js:23-28 | Appends exactly one record: the given fields under max id + 1 (1 on an empty store). Returns it. Its id exceeds every stored id, and unique ids stay unique. |
| Service.EntityApi.Edit | ctr_web/src/api/service.js:30-37 | Result and new list are those of `EditResult`/`EditStore`: merge into the first match, or null and no change. |
| Service.DeletedLargestIdIsReused | ctr_web/src/api/service.js:24 | From the seed, `add` would give id 4; after deleting id 3 it gives 3 again. |
| EntityModel.NextId | ctr_web/src/api/service.js:24 | The new id exceeds every stored id and is one more than some stored id; it is 1 on an empty list. |
| EntityModel.FirstIndexOf | ctr_web/src/api/service.js:31 | -1 iff no record has the id; otherwise a position holding the id with none before it. |
| EntityModel.MergeOverwritesOnlyPatchedFields | ctr_web/src/api/service.js:33 | Each field the patch carries is overwritten and every other field is kept. Merging twice equals merging once. An empty patch changes nothing. |
| EntityModel.EditChangesOnlyFirstMatch | ctr_web/src/api/service.js:30-36 | Absent id: null, list unchanged. Present id: the merged first match is returned and stored at its position; length and every other position are unchanged. |
| EntityModel.AppendNextIdKeepsUnique | ctr_web/src/api/service.js:24-26 | Appending a record under the next id keeps ids unique. |
| EntityModel.WithoutKeepsOthersInOrder | ctr_web/src/api/service.js:18-19 | Deleting keeps an in-order subsequence: exactly the records with another id. Absent id: the list is unchanged. |
| EntityModel.WithoutKeepsUnique | ctr_web/src/api/service.js:17-19 | Deleting keeps ids unique. |
| EntityModel.WithoutAnyKeepsOthersInOrder | ctr_web/src/redux/reducers/entitiesReducer.js:139 | Removing a list of ids keeps an in-order subsequence: exactly the records whose id is not listed. |
| EntityModel.WithoutAnyIdempotent | ctr_web/src/redux/reducers/entitiesReducer.js:139 | Removing the same ids twice equals removing them once. |
| EntityModel.WithoutAnyStep | ctr_web/src/api/service.js:17-21 | Deleting one more id after a batch is the same as removing the batch extended by that id. |
| EntityModel.Created | ctr_web/src/api/service.js:25 | `{ ...entity, id: newId }`: the given fields under the given id; `Service.EntityApi.Add` proves the id is the next one. |
| EntityModel.Merge | ctr_web/src/api/service.js:33 | `{ ...old, ...patch }`; `MergeOverwritesOnlyPatchedFields` proves which fields change. |
| EntityModel.Without | ctr_web/src/api/service.js:18-19 | The `e.id !== id` filter; `WithoutKeepsOthersInOrder` proves it keeps exactly the other records, in order. |
| EntityModel.WithoutAny | ctr_web/src/redux/reducers/entitiesReducer.js:139 | The `!ids.includes(e.id)` filter; `WithoutAnyKeepsOthersInOrder` proves it keeps exactly the unlisted records, in order. |
| EntityModel.ReplaceById | ctr_web/src/redux/reducers/entitiesReducer.js:91-93 | The map that puts the payload at every position holding its id; `EntitiesReducer.UpdateSuccessReplacesById` proves what it changes. |
| EntityModel.EditResult | ctr_web/src/api/service.js:30-37 | What `edit` returns: the merged first match, or null; `EditChangesOnlyFirstMatch` proves which record that is. |
| EntityModel.EditStore | ctr_web/src/api/service.js:30-36 | The list `edit` leaves; `EditChangesOnlyFirstMatch` proves only the first match changes. |
| Auth.FindLogin | ctr_web/src/api/users.js:32-38 | Succeeds iff some user has exactly that username and password. Returns the first such user without the password. Otherwise "Invalid username or password". |
| Auth.NewUser | ctr_web/src/api/users.js:55-62 | The new id exceeds every existing id and is one more than one of them. |
| Auth.RegisterThenLogin | ctr_web/src/api/users.js:43-67 | After a successful `register`, `login` with the same username and password returns the new user without the password. |
| Auth.AuthApi.constructor | ctr_web/src/api/users.js:1-26 | Starts with alex, sarah and mike, all with distinct accounts. |
| Auth.AuthApi.Login | ctr_web/src/api/users.js:29-41 | The scan returns exactly `FindLogin`'s answer and changes nothing. |
| Auth.AuthApi.Register | ctr_web/src/api/users.js:43-70 | A clashing username or email gives the "already exists" error and leaves the list as it was. Otherwise appends exactly the new user (id max + 1, missing last name ""), returns it without the password, and keeps accounts distinct. |
| Auth.AuthApi.Logout | ctr_web/src/api/users.js:72-78 | Always returns true and changes nothing. |
| Auth.Sanitize | ctr_web/src/api/users.js:34 | The user without the password: every other field kept; `FindLogin` and `RegisterThenLogin` state where it is returned. |
| Auth.Matches | ctr_web/src/api/users.js:32 | The `find` test of `login`: username and password both equal; `FindLogin` proves the first such user is found. |
| Auth.Conflicts | ctr_web/src/api/users.js:46-48 | The `find` test of `register`: same username or same email; `AuthApi.Register` proves a clash leaves the list alone. |
| ActionTypes.FailureOf | ctr_web/src/redux/Actions/EntityActions.js:33-36 | Builds the FAILURE action of the operation that failed, carrying the error message. |
| EntitiesReducer.Reduce | ctr_web/src/redux/reducers/entitiesReducer.js:31-167 | Throws exactly when UPDATE_ENTITY_SUCCESS carries null and the list is non-empty; the error is a TypeError about reading `id`. |
| EntitiesReducer.RequestMarksOnlyItsOperation | ctr_web/src/redux/reducers/entitiesReducer.js:34-133 | A REQUEST raises its own flag (or records the ids being deleted) and clears the error. The list, the search term and the other flags are unchanged. |
| EntitiesReducer.FetchSuccessReplacesList | ctr_web/src/redux/reducers/entitiesReducer.js:41-47 | FETCH success puts the payload in place of the list and clears `loading` and `error`. The other fields are unchanged. |
| EntitiesReducer.FailureKeepsListAndRecordsError | ctr_web/src/redux/reducers/entitiesReducer.js:49-148 | Every FAILURE keeps the list and sets the error to the payload. It clears only its own flag, or empties `deletingIds`. |
| EntitiesReducer.AddSuccessAppends | ctr_web/src/redux/reducers/entitiesReducer.js:64-70 | ADD success appends the payload: length + 1, prefix unchanged. |
| EntitiesReducer.UpdateSuccessReplacesById | ctr_web/src/redux/reducers/entitiesReducer.js:87-95 | UPDATE success replaces exactly the entries with the payload's id. Length, order and ids are kept. |
| EntitiesReducer.DeleteSuccessRemovesId | ctr_web/src/redux/reducers/entitiesReducer.js:112-118 | DELETE success keeps, in order, exactly the entries with another id, and empties `deletingIds`. |
| EntitiesReducer.DeleteManySuccessRemovesIdsOnce | ctr_web/src/redux/reducers/entitiesReducer.js:135-141 | DELETE_MANY success keeps, in order, exactly the entries whose id is unlisted. Applying it again leaves the state unchanged. |
| EntitiesReducer.OtherActionsTouchOneFieldOrNone | ctr_web/src/redux/reducers/entitiesReducer.js:151-166 | SET_SEARCH_TERM changes only the term and CLEAR_ENTITY_ERROR only the error. Any other action returns the state unchanged. |
| EntitiesReducer.ListChangesOnlyOnSuccess | ctr_web/src/redux/reducers/entitiesReducer.js:31-167 | Only a SUCCESS action changes the list. |
| EntitiesReducer.ErrorFollowsLastOutcome | ctr_web/src/redux/reducers/entitiesReducer.js:31-167 | After a FAILURE the error is its message. A REQUEST, a SUCCESS or CLEAR_ENTITY_ERROR clears it. Anything else keeps it. |
| EntitiesReducer.RequestThenOutcomeSettles | ctr_web/src/redux/reducers/entitiesReducer.js:34-148 | REQUEST followed by its own SUCCESS or FAILURE leaves that operation idle. The error is cleared by SUCCESS and set by FAILURE. |
| EntityActions.Settle | ctr_web/src/redux/Actions/EntityActions.js:23-118 | A thunk dispatches 2 or 3 actions, and REQUEST always comes first. |
| EntityActions.FailedResult | ctr_web/src/redux/Actions/EntityActions.js:32-37 | What the `catch` block returns: `fetchEntities` returns nothing, the others `{ success: false }` with the error message; `SettleDispatchesRequestThenOneOutcome` states that this is the FAILURE payload's message. |
| EntityActions.SettleDispatchesRequestThenOneOutcome | ctr_web/src/redux/Actions/EntityActions.js:23-38 | REQUEST is followed by exactly one of SUCCESS (store answered) or FAILURE (store threw), unless the reducer throws. On failure the FAILURE payload and the returned error are the same message. |
| EntityActions.OnlyANullUpdateDispatchesBoth | ctr_web/src/redux/Actions/EntityActions.js:61-78 | A third action is dispatched iff UPDATE success carries null while the list is non-empty. It is the TypeError's FAILURE. |
| EntityActions.SettleLeavesOperationIdle | ctr_web/src/redux/Actions/EntityActions.js:23-118 | After any thunk its operation is idle. A store error is the recorded error and the list is unchanged. An accepted SUCCESS leaves no error. |
| EntityActions.PlainCreatorsReachTheReducer | ctr_web/src/redux/Actions/EntityActions.js:121-129 | `setSearchTerm(t)` sets exactly the term. `clearEntityError()` clears exactly the error. |
| EntityActions.FixedUpdateCall | ctr_web/src/redux/Actions/EntityActions.js:65-69 | Corrected update: success iff the store holds the id, and the success payload is then never null. |
| EntityActions.FixedUpdateSettlesOnce | ctr_web/src/redux/Actions/EntityActions.js:61-78 | The corrected update dispatches exactly two actions. SUCCESS iff the id was held, FAILURE iff not. |
| EntityActions.Dispatcher.constructor | ctr_web/src/redux/reducers/entitiesReducer.js:21-29 | The `entities` slice starts empty, idle and without error, and does not share the store's array. |
| EntityActions.Dispatcher.Dispatch | ctr_web/src/redux/Actions/EntityActions.js:64-77 | Keeps `Coherent`: a state that shares the store's array reads the store's list. Logs the action. The state becomes the reducer's; if the reducer throws, the state is kept and the error returned. A SUCCESS the reducer takes builds a new list, so the state no longer shares the store's array; any other action keeps the sharing as it was. |
| EntityActions.Dispatcher.FetchEntities | ctr_web/src/redux/Actions/EntityActions.js:23-38 | As written: log, state and result are `Settle` of a fetch. Afterwards the state's list equals the store's and is the store's own array, since `all` returns it. |
| EntityActions.Dispatcher.FetchEntitiesFixed | ctr_web/src/api/service.js:8-10 | Corrected: the store hands out a copy of its array. Log, state and result are those of the as-written fetch, and the state agrees with the store without sharing its array. |
| EntityActions.Dispatcher.AddEntity | ctr_web/src/redux/Actions/EntityActions.js:41-58 | The store appends the record under the next id; log, state and result are `Settle` of an add from the state as it reads after the push. SUCCESS carries the record and the thunk returns it. A state holding a copy that agreed with the store still agrees. A state sharing the store's array already holds the pushed record, so it ends with its old list plus the record twice, which is the store's list plus the record again. Afterwards nothing is shared. |
| EntityActions.Dispatcher.UpdateEntity | ctr_web/src/redux/Actions/EntityActions.js:61-78 | As written: `edit` gets the id and patch unchanged, and whatever it returns, null included, is the SUCCESS payload. A state sharing the store's array sees the edit before the reducer runs; the sharing ends unless the thunk fails. |
| EntityActions.Dispatcher.UpdateEntityFixed | ctr_web/src/redux/Actions/EntityActions.js:61-78 | Corrected: an absent id dispatches FAILURE "Entity not found" instead of a null SUCCESS. Sharing is handled as in the as-written update. |
| EntityActions.Dispatcher.DeleteEntity | ctr_web/src/redux/Actions/EntityActions.js:81-98 | The same id is in REQUEST and SUCCESS and the store drops it. A state that agreed with the store still does. `delete` gives the store a new array, so afterwards nothing is shared. |
| EntityActions.Dispatcher.DeleteManyEntities | ctr_web/src/redux/Actions/EntityActions.js:101-118 | As written: the missing `EntityAPI.deleteMany` throws, so REQUEST then FAILURE; nothing is deleted. The sharing is unchanged. |
| EntityActions.Dispatcher.DeleteManyEntitiesFixed | ctr_web/src/redux/Actions/EntityActions.js:101-118 | Corrected: deletes the ids one by one through `delete`; the same ids are in REQUEST and SUCCESS. The store loses exactly the listed ids, and the state keeps agreeing with it. Afterwards nothing is shared. |
| EntityActions.NullUpdateDispatchesSuccessAndFailure | ctr_web/src/redux/Actions/EntityActions.js:61-78 | On the seeded store, updating id 99 dispatches REQUEST, SUCCESS(null), FAILURE(TypeError). |
| EntityActions.DeleteManyNeverDeletes | ctr_web/src/redux/Actions/EntityActions.js:101-118 | As written, deleting many leaves the list unchanged and reports the missing function, for any ids. |
| EntityActions.FixedDeleteManyRemovesListed | ctr_web/src/redux/Actions/EntityActions.js:101-118 | Corrected, it dispatches two actions and leaves exactly the unlisted records, nothing pending and no error. |
| EntityActions.SharedListAddShowsRecordTwice | ctr_web/src/api/service.js:23-28 | As written: when the state's list is the store's array, the push of `add` is already in it when ADD success appends the same record, so the state ends with the record twice while the store holds it once. |
| EntityActions.CopiedListAddAgrees | ctr_web/src/redux/reducers/entitiesReducer.js:64-70 | Corrected: a state holding a copy of the store's list ends with that list plus the new record, once, which is the store's new list. |
| EntityActions.FetchThenAddShowsRecordTwice | ctr_web/src/redux/Actions/EntityActions.js:23-58 | As written, on the dispatcher: `fetchEntities()` then `addEntity(data)` leaves the store with the new record once and the state with it twice. |
| EntityActions.FixedFetchThenAddAgrees | ctr_web/src/api/service.js:8-10 | Corrected: with `all` handing out a copy, the same two thunks leave the state's list equal to the store's. |
| EntityActions.SearchTermAction | ctr_web/src/redux/Actions/EntityActions.js:121-124 | `setSearchTerm(term)` is the SET_SEARCH_TERM action carrying the term; `PlainCreatorsReachTheReducer` proves what the reducer does with it. |
| EntityActions.ClearErrorAction | ctr_web/src/redux/Actions/EntityActions.js:127-129 | `clearEntityError()` is the CLEAR_ENTITY_ERROR action with no payload; `PlainCreatorsReachTheReducer` proves it clears only the error. |
| UserReducer.Reduce | ctr_web/src/redux/reducers/userReducer.js:8-26 | Login and register set the payload as user and authenticate. Logout clears both. Anything else returns the state unchanged. |
| UserReducer.ReduceKeepsConsistent | ctr_web/src/redux/reducers/userReducer.js:10-22 | Given user-carrying payloads, "authenticated iff there is a user" survives every step. A null login payload breaks it. |
| UserReducer.RunSnoc | ctr_web/src/redux/reducers/userReducer.js:8-26 | Running a sequence and then one more action is one more reducer step. |
| UserReducer.Run | ctr_web/src/redux/reducers/userReducer.js:8-26 | The session state after the store delivers a sequence of actions in order; `RunSnoc`, `RunKeepsConsistent` and `LogoutEndsSession` prove its properties. |
| UserReducer.RunKeepsConsistent | ctr_web/src/redux/reducers/userReducer.js:3-22 | From a consistent state, every sequence with user-carrying payloads ends consistent. |
| UserReducer.LogoutEndsSession | ctr_web/src/redux/reducers/userReducer.js:17-22 | After a logout followed only by non-session actions, nobody is signed in. |
| EntityValidation.EntityFirstNameAcceptedIff | ctr_web/src/validation/entityValidation.js:70-88 | Accepted iff 2-50 chars, a capital A-Z first, only ASCII letters, and not a forbidden name in any case. An empty value is first told it is required. ASCII letters are one code unit each, so the length rules count characters here. |
| EntityValidation.EntityLastNameAcceptedIff | ctr_web/src/validation/entityValidation.js:90-103 | Same rules without the forbidden-name test, so "Admin" passes. |
| EntityValidation.EntityEmailAcceptedIff | ctr_web/src/validation/entityValidation.js:105-112 | Accepted iff present, well formed, and lower-cased ends with "@company.com" or "@corp.company.com". |
| EntityValidation.AgeAcceptedIff | ctr_web/src/validation/entityValidation.js:114-119 | Accepted iff a whole number from 18 to 65. |
| EntityValidation.CustomTestsIgnoreCase | ctr_web/src/validation/entityValidation.js:42-65 | The domain and forbidden-name tests ignore case. An empty value is not corporate and not forbidden. Every corporate address ends with "company.com". |
| EntityValidation.UsernameAcceptedIff | ctr_web/src/validation/entityValidation.js:155-163 | Accepted iff 3-20 chars from [A-Za-z0-9_] and not forbidden in any case. |
| EntityValidation.RootIsNotAllowed | ctr_web/src/validation/entityValidation.js:62-65 | "Root" passes every other username rule but gets exactly the not-allowed message, since the forbidden-name test lower-cases. |
| EntityValidation.PasswordAcceptedIff | ctr_web/src/validation/entityValidation.js:165-176 | Accepted iff at least 8 UTF-16 code units (`length`) and the pattern holds on the first line. The confirmation is accepted iff present and equal to the password. |
| EntityValidation.FirstLine | ctr_web/src/validation/entityValidation.js:169 | The line the lookaheads can scan: a prefix free of line terminators that stops at the first one. |
| EntityValidation.PasswordExampleAccepted | ctr_web/src/validation/entityValidation.js:165-171 | "Abcdefg1" passes the password rules. |
| EntityValidation.PasswordPatternSeesFirstLineOnly | ctr_web/src/validation/entityValidation.js:169 | "ABCDEFG1\na" fails the pattern: its lowercase letter is past the line break. |
| EntityValidation.RegistrationNamesAcceptedIff | ctr_web/src/validation/entityValidation.js:139-149 | First name: 2 code units and a capital. Last name: absent passes, "" fails on length, a present one needs 2 code units and a capital. |
| EntityValidation.RegistrationEmailAcceptedIff | ctr_web/src/validation/entityValidation.js:151-153 | Accepted iff present and well formed. An empty one is only told it is required. |
| EntityValidation.LoginAcceptedIff | ctr_web/src/validation/entityValidation.js:180-188 | Accepted iff the username has at least 3 UTF-16 code units and the password at least 6. |
| EntityValidation.StartsWithCapital | ctr_web/src/validation/entityValidation.js:30-33 | `startsWithCapital`: false on the empty string, otherwise the first character is A-Z. |
| EntityValidation.OnlyLetters | ctr_web/src/validation/entityValidation.js:36-39 | `onlyLetters`: false on the empty string, otherwise every character is an ASCII letter. |
| EntityValidation.IsCorporateEmail | ctr_web/src/validation/entityValidation.js:42-47 | `isCorporateEmail`: false on the empty string, otherwise the lower-cased address ends with an allowed domain; `CustomTestsIgnoreCase` proves it ignores case. |
| EntityValidation.IsNotForbiddenName | ctr_web/src/validation/entityValidation.js:62-65 | `isNotForbiddenName`: true on the empty string, otherwise the lower-cased value is not a forbidden name; `CustomTestsIgnoreCase` proves it ignores case. |
| EntityValidation.EntityFirstNameErrors | ctr_web/src/validation/entityValidation.js:70-88 | The messages of the failing first-name rules, in declaration order; `EntityFirstNameAcceptedIff` proves when the list is empty. |
| EntityValidation.EntityLastNameErrors | ctr_web/src/validation/entityValidation.js:90-103 | The messages of the failing last-name rules, in order; `EntityLastNameAcceptedIff` proves when the list is empty. |
| EntityValidation.EntityEmailErrors | ctr_web/src/validation/entityValidation.js:105-112 | The messages of the failing email rules, in order; `EntityEmailAcceptedIff` proves when the list is empty. |
| EntityValidation.AgeErrors | ctr_web/src/validation/entityValidation.js:114-119 | A missing age or a failed cast gives one message; a number gets the messages of the failing integer and range rules; `AgeAcceptedIff` proves when the list is empty. |
| EntityValidation.RegistrationFirstNameErrors | ctr_web/src/validation/entityValidation.js:139-142 | The messages of the failing registration first-name rules; `RegistrationNamesAcceptedIff` proves when the list is empty. |
| EntityValidation.RegistrationLastNameErrors | ctr_web/src/validation/entityValidation.js:144-149 | An absent last name has no errors; a present one gets the length and capital messages that apply; `RegistrationNamesAcceptedIff` proves when the list is empty. |
| EntityValidation.RegistrationEmailErrors | ctr_web/src/validation/entityValidation.js:151-153 | The messages of the failing registration email rules; `RegistrationEmailAcceptedIff` proves when the list is empty. |
| EntityValidation.UsernameErrors | ctr_web/src/validation/entityValidation.js:155-163 | The messages of the failing username rules, in order; `UsernameAcceptedIff` proves when the list is empty. |
| EntityValidation.PasswordPattern | ctr_web/src/validation/entityValidation.js:168-170 | The three lookaheads: a lowercase letter, an uppercase letter and a digit on the first line; `PasswordPatternSeesFirstLineOnly` shows the line limit. |
| EntityValidation.PasswordErrors | ctr_web/src/validation/entityValidation.js:165-171 | The messages of the failing password rules, in order; `PasswordAcceptedIff` proves when the list is empty. |
| EntityValidation.ConfirmPasswordErrors | ctr_web/src/validation/entityValidation.js:173-175 | The messages of the failing confirmation rules; `PasswordAcceptedIff` proves when the list is empty. |
| EntityValidation.LoginErrors | ctr_web/src/validation/entityValidation.js:180-188 | The messages of the failing login rules, in order; `LoginAcceptedIff` proves when the list is empty. |
| EnhancedTable.KeepVisible | ctr_web/src/components/EnhancedTable/EnhancedTable.js:348-351 | The shown columns are exactly the visible ones, in the fixed column order. |
| EnhancedTable.AllColumns | ctr_web/src/components/EnhancedTable/EnhancedTable.js:40-47 | The six columns in order: id, first name, last name, email, age, hire date; `SortTypeOfAllColumns` states their types. |
| EnhancedTable.VisibleColumns | ctr_web/src/components/EnhancedTable/EnhancedTable.js:348-351 | The columns shown are `KeepVisible` of the fixed column list, so `KeepVisible`'s contract states what is shown. |
| EnhancedTable.SortType | ctr_web/src/components/EnhancedTable/EnhancedTable.js:65-66 | The type of the first column with that id, or 'string' when none has it. |
| EnhancedTable.SortTypeOfKeepVisible | ctr_web/src/components/EnhancedTable/EnhancedTable.js:64-66 | Hiding columns changes the sort type only of a hidden sort column, which becomes 'string'. |
| EnhancedTable.SortTypeComesFromVisibleColumns | ctr_web/src/components/EnhancedTable/EnhancedTable.js:64-66 | The sort type is the column's own type (number, string or date) while it is shown, and 'string' once hidden. |
| EnhancedTable.SortTypeOfAllColumns | ctr_web/src/components/EnhancedTable/EnhancedTable.js:40-47 | Id and age sort as numbers, hire date as a date, and the rest as strings. |
| EnhancedTable.LexLessTrichotomy | ctr_web/src/components/EnhancedTable/EnhancedTable.js:59-60 | JavaScript `<` on strings: exactly one of a < b, b < a, a == b. |
| EnhancedTable.LexLessTransitive | ctr_web/src/components/EnhancedTable/EnhancedTable.js:59-60 | String `<` is transitive. |
| EnhancedTable.LessAsymmetric | ctr_web/src/components/EnhancedTable/EnhancedTable.js:59-60 | No two cell values are each less than the other. |
| EnhancedTable.ComparatorLaws | ctr_web/src/components/EnhancedTable/EnhancedTable.js:50-71 | 'asc' is the exact negation of 'desc'. The comparator is -1/0/1 and antisymmetric, and 0 iff neither key is less. Negative means "less" under 'asc' and "greater" under 'desc'. |
| EnhancedTable.CompareTransitive | ctr_web/src/components/EnhancedTable/EnhancedTable.js:50-71 | Between rows that all have a value, "not after" is transitive. |
| EnhancedTable.DescendingComparator | ctr_web/src/components/EnhancedTable/EnhancedTable.js:50-62 | `descendingComparator`: -1 when the second value is less, 1 when greater, else 0; `ComparatorLaws` proves its laws. |
| EnhancedTable.GetSorting | ctr_web/src/components/EnhancedTable/EnhancedTable.js:64-66 | The column type found for `orderBy` among the visible columns, or 'string'; `SortTypeOfKeepVisible` and `SortTypeComesFromVisibleColumns` prove which. |
| EnhancedTable.Compare | ctr_web/src/components/EnhancedTable/EnhancedTable.js:68-70 | The comparator `getComparator` returns: the descending one, negated for 'asc'; `ComparatorLaws` and `CompareTransitive` prove it orders rows. |
| EnhancedTable.Insert | ctr_web/src/components/EnhancedTable/EnhancedTable.js:393 | Inserting adds exactly that row to the multiset of rows. |
| EnhancedTable.InsertKeepsSorted | ctr_web/src/components/EnhancedTable/EnhancedTable.js:393 | Inserting a keyed row into sorted keyed rows keeps them sorted. |
| EnhancedTable.SortRowsSortsAndPermutes | ctr_web/src/components/EnhancedTable/EnhancedTable.js:392-394 | The sorted list is a permutation of the filtered list. When every row has a sort value, it is ordered by the comparator. |
| EnhancedTable.SortRows | ctr_web/src/components/EnhancedTable/EnhancedTable.js:392-394 | `[...filtered].sort(comparator)`; `SortRowsSortsAndPermutes` proves it permutes the rows and orders them. |
| EnhancedTable.MatchesSearch | ctr_web/src/components/EnhancedTable/EnhancedTable.js:357-365 | The lower-cased term occurs in the lower-cased first name, last name or email, or in the id's text; `FilteredKeepsMatchesInOrder` and `SearchDropsBob` use it. |
| EnhancedTable.Keep | ctr_web/src/components/EnhancedTable/EnhancedTable.js:355-388 | The filter callback: the search and the four bounds; `FilteredKeepsMatchesInOrder` proves what it keeps. |
| EnhancedTable.Filtered | ctr_web/src/components/EnhancedTable/EnhancedTable.js:354-389 | `entities.filter(keep)`; `FilteredKeepsMatchesInOrder` proves it keeps exactly the kept records, in order. |
| EnhancedTable.FilteredKeepsMatchesInOrder | ctr_web/src/components/EnhancedTable/EnhancedTable.js:354-389 | The kept rows are an in-order subsequence: exactly the rows the callback keeps. Each matches the lower-cased term in first name, last name, email or decimal id, and respects the age bounds. No search and no filters keeps everything. |
| EnhancedTable.Paginate | ctr_web/src/components/EnhancedTable/EnhancedTable.js:397-402 | The page is the slice [page·rpp, page·rpp + rpp) clamped to the list: at most rpp rows, and empty past the end. |
| EnhancedTable.ViewShowsKeptRecords | ctr_web/src/components/EnhancedTable/EnhancedTable.js:354-402 | Every row on screen is a stored record the filter keeps, and there are at most rpp of them. |
| EnhancedTable.ViewSize | ctr_web/src/components/EnhancedTable/EnhancedTable.js:354-402 | The number of rows on screen depends only on the number of kept records, the page and rpp. |
| EnhancedTable.FirstPageShowsMatches | ctr_web/src/components/EnhancedTable/EnhancedTable.js:451-454 | Page 0, where a filter change returns, is never empty while something matches. |
| EnhancedTable.View | ctr_web/src/components/EnhancedTable/EnhancedTable.js:354-402 | Filter, sort, then the current page; `ViewShowsKeptRecords` and `ViewSize` prove what is shown. |
| EnhancedTable.Toggled | ctr_web/src/components/EnhancedTable/EnhancedTable.js:420-438 | An absent id is appended at the end. A present id is cut out at its index, and the rest keep their order. |
| EnhancedTable.ToggleFlipsOnlyTheClickedId | ctr_web/src/components/EnhancedTable/EnhancedTable.js:420-438 | On a selection without repeats, a click flips only the clicked id's membership and keeps the selection free of repeats. Clicking an absent id twice restores the selection. |
| EnhancedTable.SortClicksAlternate | ctr_web/src/components/EnhancedTable/EnhancedTable.js:405-409 | A click sorts by the clicked column. It gives 'desc' iff that column was 'asc', so repeated clicks alternate, and another column starts at 'asc'. |
| EnhancedTable.SortAfterClick | ctr_web/src/components/EnhancedTable/EnhancedTable.js:405-409 | `handleRequestSort`: 'desc' only after 'asc' on the same column, and the clicked column; `SortClicksAlternate` proves it. |
| EnhancedTable.WithFilterChangesOneField | ctr_web/src/components/EnhancedTable/EnhancedTable.js:452 | A filter change sets the named filter and keeps the others. |
| EnhancedTable.WithFilter | ctr_web/src/components/EnhancedTable/EnhancedTable.js:452 | `{ ...prev, [field]: value }`; `WithFilterChangesOneField` proves only that filter changes. |
| EnhancedTable.TableState.constructor | ctr_web/src/components/EnhancedTable/EnhancedTable.js:336-345 | Initial state: asc by id, nothing selected, page 0, 5 rows, no search, no filters, every column visible. |
| EnhancedTable.TableState.IsSelected | ctr_web/src/components/EnhancedTable/EnhancedTable.js:463 | True iff the id is selected. |
| EnhancedTable.TableState.Rows | ctr_web/src/components/EnhancedTable/EnhancedTable.js:397-402 | The rows on screen are `View` of the records under the table's current search, filters, sort and page; `ViewShowsKeptRecords` and `ViewSize` state what is shown. |
| EnhancedTable.TableState.RequestSort | ctr_web/src/components/EnhancedTable/EnhancedTable.js:405-409 | The new order and column are `SortAfterClick`'s. |
| EnhancedTable.TableState.SelectAllClick | ctr_web/src/components/EnhancedTable/EnhancedTable.js:411-418 | Checking selects the ids of the current page. Unchecking clears the selection. |
| EnhancedTable.TableState.Click | ctr_web/src/components/EnhancedTable/EnhancedTable.js:420-438 | The four branches leave the selection `Toggled`. |
| EnhancedTable.TableState.ChangePage | ctr_web/src/components/EnhancedTable/EnhancedTable.js:440-443 | Sets the page and clears the selection. |
| EnhancedTable.TableState.ChangeRowsPerPage | ctr_web/src/components/EnhancedTable/EnhancedTable.js:445-449 | Sets rows per page, resets the page to 0 and clears the selection. |
| EnhancedTable.TableState.FilterChange | ctr_web/src/components/EnhancedTable/EnhancedTable.js:451-454 | Sets one filter and resets the page to 0. |
| EnhancedTable.TableState.SearchChange | ctr_web/src/components/EnhancedTable/EnhancedTable.js:490 | As written: sets the term and keeps the page. |
| EnhancedTable.TableState.SearchChangeFixed | ctr_web/src/components/EnhancedTable/EnhancedTable.js:451-454 | Corrected: sets the term and resets the page to 0, as a filter change does. |
| EnhancedTable.TableState.ColumnsChange | ctr_web/src/components/EnhancedTable/EnhancedTable.js:494 | Sets the visible columns. |
| EnhancedTable.TableState.DeleteSelected | ctr_web/src/components/EnhancedTable/EnhancedTable.js:456-461 | On confirmation, hands the selection to `onDeleteMany` and clears it. Otherwise nothing happens. |
| EnhancedTable.SearchKeepsStalePage | ctr_web/src/components/EnhancedTable/EnhancedTable.js:490 | As written: at any page size the pagination offers (5, 10, 25, 50), a page past the first stays open after a search that leaves no more matches than the earlier pages hold, so the screen is empty though something matches; page 0 would show the matches. |
| EnhancedTable.StaleSearchOverSixRecords | ctr_web/src/components/EnhancedTable/EnhancedTable.js:339-340 | As written, from the initial state: over six records at 5 rows per page, page 1 shows one row; a search matching one record leaves page 1 open and empty. |
| EnhancedTable.FixedSearchShowsMatches | ctr_web/src/components/EnhancedTable/EnhancedTable.js:451-454 | Corrected: `SearchChangeFixed` goes back to page 0, so the table shows a row whenever the search and the filters keep a record and the page size is positive. |
| Registration.WithFieldChangesOneField | ctr_web/src/components/Registration.js:17-20 | An input change sets the named field and keeps the other five. |
| Registration.MissingRequiredIffBlank | ctr_web/src/components/Registration.js:28-29 | A required field counts as missing iff the username, password, email or first name is only white space (or empty). |
| Registration.PreSubmitChecksInOrder | ctr_web/src/components/Registration.js:28-42 | Checks in order, first failure wins. A blank (white-space only) username, password, email or first name gives the required message. Otherwise a mismatch gives "Passwords do not match", then a password under 6 UTF-16 code units (`length`) gives the length message, else no error. The last name never matters. |
| Registration.WithField | ctr_web/src/components/Registration.js:17-20 | `{ ...prevState, [name]: value }`; `WithFieldChangesOneField` proves only the named field changes. |
| Registration.MissingRequired | ctr_web/src/components/Registration.js:28-29 | Some required field trims to ""; `MissingRequiredIffBlank` proves this means one of them is only white space. |
| Registration.PreSubmitError | ctr_web/src/components/Registration.js:28-42 | The message of the first failing check, or none; `PreSubmitChecksInOrder` proves the order and the conditions. |
| Registration.RegistrationForm.constructor | ctr_web/src/components/Registration.js:4-13 | Six empty fields, not loading, no error. |
| Registration.RegistrationForm.HandleInputChange | ctr_web/src/components/Registration.js:15-22 | Updates the named field and clears any error. |
| Registration.RegistrationForm.Submit | ctr_web/src/components/Registration.js:24-48 | A failed check sets its message, `onRegister` is not called and loading is untouched. Otherwise the error is cleared, loading is set, and `onRegister` receives the form unchanged. The checks are those of `PreSubmitError`, with the length in UTF-16 code units. |
| Registration.RegistrationForm.CallSettled | ctr_web/src/components/Registration.js:47-53 | Afterwards loading is false whatever the outcome. A rejection's message becomes the error. |
| Text.TrimBlank | ctr_web/src/components/Registration.js:28-29 | `trim()` gives "" iff the string is only white space. |
| Text.ContainsIffOccurs | ctr_web/src/components/EnhancedTable/EnhancedTable.js:360-363 | `includes` holds iff the term occurs at some position. |
| Text.JsLength | ctr_web/src/components/Registration.js:39 | JavaScript's `length`: at least the character count and at most twice it, and equal to it iff every character lies in the Basic Multilingual Plane. |
| Text.AstralCharactersCountTwice | ctr_web/src/components/Registration.js:39 | Three emoji are 3 characters but have `length` 6, so such a password passes the 6-character check. |
| Seqs.IndexOf | ctr_web/src/components/EnhancedTable/EnhancedTable.js:421 | -1 iff absent; otherwise the first position holding the value. |

## Left out

- Latency and asynchrony: `setTimeout` in users.js and the Promises and `await`s of the thunks. Each call settles at once with a `Result`. Interleavings of concurrent thunks are not modelled.
- Aliasing of records: `get` and `edit` return the stored record objects themselves, and a caller that changed one would change the store. The model returns values. The sharing of the list itself is modelled (`EntityActions.Dispatcher`'s `shared`).
- Records are typed (id, names, email, optional age, optional hire date). Other JavaScript properties a record might carry are not modelled. A hire date is a day number.
- ActionsTypes.js defines only some of the action-type names the reducers and thunks import. The model gives every imported name its own action kind, as the code's intent is; what happens when the constants are `undefined` is not modelled.
- `combineReducers`, the Redux store, the theme slice, localStorage, `window.matchMedia`, routing and all rendering are not part of this model. Neither are Login.js, App.js and the other components.
- EntityValidation: Yup's `.email()` is an opaque `wellFormed` flag; `.typeError()` is the `AgeInput.NotANumber` case.
- EntityValidation: the hire-date rules `isNotFutureDate` and `isAfterCompanyFounded` read the clock and parse dates, and are not modelled. Neither are `COMPANY_FOUNDED_DATE`, `CORPORATE_EMAIL_DOMAIN` or `WORKING_HOURS`, which no rule in the schemas uses.
- EntityValidation: the max(50) messages say "less than 50" while the rule admits 50 characters; the model keeps the rule and the text as written.
- Text.Lower: `toLowerCase` is modelled on ASCII letters only; Unicode case mapping is not.
- EnhancedTable: `<` on strings is modelled as code-unit order on Dafny characters; UTF-16 surrogate pairs are not distinguished.
- EnhancedTable: filter inputs are `Option<int>`, with an empty field as `None`. `Number()` coercion of non-numeric text (NaN), fractional bounds and `parseInt` of rows-per-page are not modelled.
- EnhancedTable: `formatCellValue`, the summary row's average age (`toFixed`) and earliest hire date are display only and not modelled.
- EnhancedTable.SortRowsSortsAndPermutes: the order is proved only when every row has a value for the sort column. With a missing age or hire date the comparator is not a consistent order, and the engine's order is implementation-defined. `Array.prototype.sort` is modelled as a stable insertion sort; stability itself is not stated.
- EnhancedTable.TableState.DeleteSelected: `window.confirm` is the `confirmed` parameter. The selection is cleared after `onDeleteMany` settles; a rejection of `onDeleteMany` (which would skip the clearing) is not modelled.
- Registration.RegistrationForm.CallSettled: a rejection whose value has no `message` property is not modelled.
- EntitiesReducer.Reduce: the text of the TypeError thrown on a null payload depends on the JavaScript engine. The model fixes one message.
- EntityActions.DeleteManyNeverDeletes: the text of the TypeError thrown by calling the undefined `EntityAPI.deleteMany` depends on the engine and the bundler (for example "_service.default.deleteMany is not a function"). The model fixes one message, `MissingDeleteManyMessage`; the same holds for `EntityActions.Dispatcher.DeleteManyEntities`.

## Findings

The rows on the entity thunks describe them with the action-type constants defined; as written, ActionsTypes.js defines none of the imported REQUEST, SUCCESS and FAILURE names (see "## Left out").

| source | as written | input that shows it | evidently intended | confidence | as-written member | corrected member |
|---|---|---|---|---|---|---|
| ctr_web/src/redux/Actions/EntityActions.js:61-78 | `edit` returns null for an absent id, and null is dispatched as the UPDATE success payload. The reducer then throws reading `null.id`, and the `catch` dispatches FAILURE too. | Seeded store, `updateEntity(99, {firstName: "X"})`: REQUEST, SUCCESS(null), FAILURE(TypeError) | An absent id is reported as one FAILURE, never as a null SUCCESS | not executed | EntityActions.NullUpdateDispatchesSuccessAndFailure | EntityActions.FixedUpdateSettlesOnce |
| ctr_web/src/redux/Actions/EntityActions.js:105 | `EntityAPI.deleteMany` is called, but service.js never defines it. Every call throws a TypeError, so FAILURE is dispatched and nothing is deleted. | `deleteManyEntities([1, 2])` on the seeded store: the list keeps all three records | The listed ids are deleted and DELETE_MANY success is dispatched | not executed | EntityActions.DeleteManyNeverDeletes | EntityActions.FixedDeleteManyRemovesListed |
| ctr_web/src/components/EnhancedTable/EnhancedTable.js:490 | The search box is wired straight to `setSearchTerm`, so the page is kept. Filter changes reset it (lines 451-454). | Six records at the initial 5 rows per page, page 1 open showing the sixth, then a search matching one record: the table is empty | A search change goes back to page 0 like a filter change, so matches show | not executed | EnhancedTable.SearchKeepsStalePage | EnhancedTable.TableState.SearchChangeFixed, EnhancedTable.FirstPageShowsMatches |
| ctr_web/src/redux/Actions/EntityActions.js:27-31 | `all` returns the store's own array, and FETCH success puts that array into the state. `add` then pushes the new record into the shared array, and ADD success appends it a second time. | Seeded store: `fetchEntities()` then `addEntity({firstName: "Ann", ...})`: the store holds 4 records, the table shows 5, the new one twice | The state mirrors the store: `all` hands out a copy, and each record shows once | not executed | EntityActions.FetchThenAddShowsRecordTwice | EntityActions.FixedFetchThenAddAgrees |
