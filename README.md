# Library management backend — request-handler model

A Dafny model of the logic in the HTTP request layer of a library-management backend
(`backend/server.js`). Everything else in that layer is a single SQL statement or stored
procedure call; three pieces carry behaviour of their own, and they are modelled here:

- **Copy-count reconciliation** (`PUT /books/:book_id`): when a book's total number of
  copies changes, its available count is recomputed from the stored `(total_copies,
  available_copies)`. An increase is added to the available count; a decrease clamps the
  available count to `max(0, min(available, newTotal - borrowed))`; an unchanged total keeps
  it. Module `Reconciliation` (pure function and lemmas) and the method
  `LibraryStore.Library.UpdateBook` (look up the row, answer 404 if it is missing,
  otherwise reconcile and overwrite the row).
- **Reservation status whitelist** (`PUT /reservations/:reservation_id/status`): only
  `Active`, `Completed` and `Cancelled` are accepted; anything else answers 400 before any
  write; a valid status for an id that matches no row answers 404. Module `Reservations`
  and the method `LibraryStore.Library.UpdateReservationStatus`.
- **Field resolution** (`POST /books`, `POST /reservations`): each column is
  `body.field || query.field`, with `total_copies` defaulting to 1, `available_copies` to the
  resolved total and the reservation `status` to `"Active"`. Module `Parameters`, built on
  module `JsValues`, which models JavaScript truthiness and the `||` operator, together with
  an independent reference reading of an `||` chain (`FirstTruthy`).

The store is abstracted as one `map` per table inside the class `LibraryStore.Library`;
each update handler is one atomic method over it.

Modelling notes:

- The resolution follows the code's `||`, which tests JavaScript truthiness, not mere
  presence: an empty string, `0`, `false` or `null` in the body falls through to the query,
  and an empty query string falls through to the default. One consequence, proved in
  `Parameters.ZeroCountsFallBack`: when the query carries neither count, a JSON body with
  `total_copies: 0` creates a book with 1 copy, and one with `available_copies: 0` makes
  all copies available.
- A new total below the number of copies on loan is accepted, not rejected: the available
  count becomes 0 and the row's total no longer covers its loans
  (`Reconciliation.ShrinkBelowLoansForgetsLoans`); restoring the old total afterwards makes
  more copies available than before (`Reconciliation.ShrinkThenRestoreOvercounts`). The model
  keeps this behaviour as written.
- The reservation handler decides 404 from the number of rows the `UPDATE` affected. The
  model takes that number to be the number of rows matched (1 when the id exists, 0
  otherwise), which is what the MySQL drivers report by default, so rewriting a reservation
  with its current status still answers 200.
- `POST /reservations` does not check the status against the allowed set; only the update
  endpoint does.

## Model

| member | source | states |
|---|---|---|
| JsValues.Truthy | backend/server.js:104-110 | the values the or-operator treats as false are exactly `undefined`, `null`, `false`, `0` and the empty string |
| JsValues.Or | backend/server.js:104-110 | the JavaScript or-operator `a or b` yields the left operand when it is truthy and the right operand otherwise, so it is truthy exactly when one operand is |
| JsValues.FirstTruthy | backend/server.js:104-110 | reference reading of an or-chain: the result is an operand, is truthy iff some operand is, is the last operand when none is truthy, and otherwise is an operand preceded only by falsy ones |
| JsValues.OrIsFirstTruthy | backend/server.js:104-108 | a two-operand or-chain agrees with the reference reading |
| JsValues.OrChainIsFirstTruthy | backend/server.js:109-110 | a three-operand left-associated or-chain agrees with the reference reading |
| Parameters.BodyField | backend/server.js:104 | `req.body?.key` is the body's value for a present key and `undefined` for an absent one |
| Parameters.QueryField | backend/server.js:104 | `req.query?.key` is the query string's value, as a string, for a present key and `undefined` for an absent one |
| Parameters.Field | backend/server.js:104-108 | a field without default is the first truthy of body value and query value, else the query value |
| Parameters.FieldOr | backend/server.js:109 | a field with a default is the first truthy of body, query and default, and is truthy whenever the default is |
| Parameters.ResolveNewBook | backend/server.js:104-110 | every column of a new book follows body-then-query precedence; `total_copies` falls back to 1 and `available_copies` to the resolved total, so both counts are always truthy |
| Parameters.ResolveNewReservation | backend/server.js:132-134 | member and book ids follow body-then-query precedence; the status falls back to `"Active"` and is always truthy |
| Parameters.BodyTakesPrecedence | backend/server.js:104-110 | a truthy body value is the result whatever the query holds |
| Parameters.FallbackOrder | backend/server.js:104-110 | with a falsy body value, a non-empty query value is used, and otherwise the default |
| Parameters.ZeroCountsFallBack | backend/server.js:109-110 | a JSON `0` for `total_copies` yields 1, and a JSON `0` for `available_copies` yields the total |
| Parameters.EmptyRequestDefaults | backend/server.js:109-110 | an empty request yields a book with 1 copy, 1 available, and a reservation with status `"Active"` |
| Reconciliation.ReconcileAvailable | backend/server.js:262-280 | a consistent book (0 ≤ available ≤ total) stays consistent for any non-negative new total; the copies on loan are preserved while the new total covers them; a new total below the loans yields 0; a non-increasing total never raises the available count |
| Reconciliation.IncreaseAddsDifference | backend/server.js:271-273 | an increase of the total is added in full to the available count |
| Reconciliation.UnchangedTotalKeepsAvailable | backend/server.js:270-271 | an unchanged total keeps the available count |
| Reconciliation.DecreaseClamps | backend/server.js:274-279 | a decrease yields `max(0, min(available, newTotal - borrowed))`, never negative and never above the old available count |
| Reconciliation.ShrinkBelowLoansForgetsLoans | backend/server.js:277-279 | a new total below the loans gives 0 available and a row whose total no longer covers the loans |
| Reconciliation.ShrinkThenRestoreOvercounts | backend/server.js:270-280 | shrinking below the loans and restoring the old total leaves more copies available than before |
| Reconciliation.WorkedExamples | backend/server.js:262-280 | (5,2)→8 gives 5; (10,7)→8 gives 5; (10,7)→2 gives 0 |
| Reconciliation.SuccessiveUpdatesKeepLoans | backend/server.js:262-294 | any series of updates whose totals cover the loans keeps the row consistent and the loans unchanged, and ends with `lastTotal - borrowed` available |
| Reservations.ParseStatus | backend/server.js:343-344 | a status is accepted exactly when it is a string in the allowed list `ValidStatuses` (line 343), and it is accepted as status `st` exactly when it is `st`'s name |
| Reservations.StatusNameRoundTrip | backend/server.js:343 | each allowed status's name is in the list and is accepted as that status |
| Reservations.RejectedStatuses | backend/server.js:343-346 | `"Pending"`, `"active"`, a missing status and a number are all refused |
| LibraryStore.DetailsFromBody | backend/server.js:248 | the descriptive columns of a book update are the body's values as given (written at lines 291-293): a present key's value even when falsy, `undefined` for a missing key, never a query value |
| LibraryStore.Library.UpdateBook | backend/server.js:247-301 | unknown id: 404, table unchanged; known id: 200 with `copyDifference = newTotal - oldTotal` and the reconciled count, only that row overwritten with the body's columns and the new counts; table consistency and the book's loans are preserved as in `ReconcileAvailable`; reservations untouched |
| LibraryStore.Library.UpdateReservationStatus | backend/server.js:339-359 | a status outside the allowed set: 400, no write; a valid status for an unknown id: 404, no write; otherwise 200 and only that reservation's status changes; books untouched |

## Left out

- Express setup, CORS, JSON middleware, logging and the listening port: I/O plumbing.
- The six `GET` list endpoints, each a `SELECT *` whose rows are returned unchanged, and the `/` test route, which answers a fixed text: I/O plumbing.
- `POST /issue`, `POST /return`, `POST /register`: their behaviour lives in stored procedures that are not part of this model.
- `PUT /members/:member_id`: a single `UPDATE` of the body's columns that answers 404 when no row is affected and 200 otherwise, the same rule modelled for reservations; it is not modelled separately.
- `PUT /fines/:fine_id/pay`: a single `UPDATE` setting `paid`; it answers 200 even when no row matches, and is not modelled.
- LibraryStore.Library.UpdateBook: takes the request body as a map, so a request without a parsed body is treated as an empty map; in the code the destructuring of an undefined `req.body` would throw before the handler answers, depending on the framework version.
- LibraryStore.Library.UpdateReservationStatus: takes the body's `status` as a value, so a request without a parsed body is treated as one with no status (400); in the code the destructuring of an undefined `req.body` would throw instead, depending on the framework version.
- The inserts of `POST /books` and `POST /reservations`: the model stops at the resolved row; the store assigns the id and converts the values to its column types.
- Store failures and their mapping to 500: any store error aborts the request; nothing beyond that to state.
- The race between the read and the write of `PUT /books/:book_id`: each handler is modelled as one atomic step.
- `parseInt` of `total_copies`: the new total is taken as an already parsed integer, so a missing or non-numeric total (NaN in the code) is not modelled.
- Numeric width: JavaScript numbers and the store's integer columns are modelled as unbounded integers; floating-point values in a JSON body are not modelled.
- Query values given more than once (arrays) and nested objects in the body are not modelled: query values are single strings and body values are scalars.
