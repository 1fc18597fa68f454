# Seat booking engine — a verified Dafny model

This project models the seat-reservation engine of the `SeatBooking` screen
(`src/SeatBooking.js`): a fixed grid of 8 rows by 10 seats, each seat
Available, Selected or Booked. The model covers these parts:

- building the grid and resetting it;
- the row-based prices (premium 1000 for rows 0–2, standard 750 for rows 3–5,
  economy 500 after that) and the on-screen total;
- the three status counters;
- the seat click, with its three guards: a Booked seat ignores the click, a
  ninth seat cannot be selected, and the "no single orphan seat" check;
- the booking commit and the list of Booked seat identifiers it persists;
- clearing the selection;
- merging a stored list of identifiers into a fresh grid on load.

Layout, one module per file:

- `seats.dfy` (`Seats`): statuses, seats, identifiers `"<row>-<seat>"`, the
  well-formed 8 × 10 grid, and `InitializeSeats`, the nested loops that build it.
- `queries.dfy` (`Queries`): flattening, the counters, prices, and three
  per-seat rewrites. Clearing applies its rewrite to every seat (`map`), and so
  does the load effect. Booking copies the grid and books the listed seats one
  by one in a `forEach`. `Engine.MarkListedBooked` proves that this equals
  applying the promote rewrite to every seat.
- `policy.dfy` (`Policy`): the seat click and its guards.
- `booking.dfy` (`Booking`): the booking commit, clear and reset as functions
  from one grid to the next.
- `store.dfy` (`Store`): the persisted list and the load-time merge.
- `engine.dfy` (`Engine`): class `SeatBooking`, with the current grid as a
  field and one method per handler. Each method follows the handler's own
  steps (copy the grid, assign the seat, loop over the selected seats) and is
  proved equal to the function that specifies it. The module also has a
  session view (`Step`, `Run`) over sequences of user events.

Browser effects are inputs:

- The user's answers to the confirmation prompts are boolean parameters.
- The stored value is a `seq<string>` of identifiers. An absent key, a value
  that is not a JSON array, or a parse failure is the empty sequence.
- `BookSeats` returns the list to store (`Some(ids)`) or `None` when nothing is
  written. `Reset` returns whether the stored key is removed.
- Alerts are replaced by outcome values: `ClickOutcome` and `BookOutcome`.

Three places where the code admits more than one reading, and the reading the model takes:

- The click and the booking handler count Selected seats from the grid of the
  current render, not from the updater's `prevSeats`. The model counts over the
  grid it is given. With one state and no batching the two are the same grid,
  and that is the intended reading.
- The load merge marks every seat whose identifier is stored as Booked. It does
  not first check that the seat is Available. The model follows the code; on the
  fresh grid it is applied to, the two readings agree (`LoadBooksStoredSeats`).
- `getSeatPrice` has no invalid-row error: every row up to 2, negative rows
  included, is premium, and every row after 5 is economy. The model follows the
  code.

The continuity check looks only at the clicked seat's own position. The model
does NOT claim that no Available seat is ever left between two blockers:
`OrphanMayAppearElsewhere` shows an accepted click that leaves seat 1 of a row
isolated.

## Model

| member | source | states |
|---|---|---|
| Seats.Digit | src/SeatBooking.js:30 | the character of digit d is the d-th character after `'0'` |
| Seats.NatToString | src/SeatBooking.js:30 | the decimal text of an integer is non-empty, all digits, without a leading zero, and one character long exactly for 0–9 |
| Seats.NatToStringValue | src/SeatBooking.js:30 | the decimal text of n denotes n, so `NatToString` is the decimal representation |
| Seats.SeatIdReadsBack | src/SeatBooking.js:30 | `SeatId(r, c)` has a dash; the text before the first dash denotes r and the text after it denotes c |
| Seats.SeatIdOfSmall | src/SeatBooking.js:26-30 | on the 8 × 10 grid the identifier of seat [r][c] is the digit r, a dash, and the digit c |
| Seats.SeatIdInjective | src/SeatBooking.js:30 | two identifiers `"r-c"` are equal only if the rows and the columns are equal |
| Seats.IdsDistinct | src/SeatBooking.js:29-34 | in a labelled grid, two seats have the same identifier exactly when they are the same seat, so all 80 identifiers are distinct |
| Seats.InitialGrid | src/SeatBooking.js:24-39 | the initial grid has 8 rows of 10 seats; seat [r][c] has row r, seat c, identifier "r-c", and status Available |
| Seats.InitializeSeats | src/SeatBooking.js:24-39 | the nested loops with `push` build exactly the initial grid |
| Queries.Flatten | src/SeatBooking.js:71 | every seat at a grid position appears in the flattened list |
| Queries.Filter | src/SeatBooking.js:73-80 | the filtered list is no longer than its input and holds exactly the input seats with the given status |
| Queries.FlattenMember | src/SeatBooking.js:71 | in a labelled grid, each seat of the flattened list is the seat at its own row and column |
| Queries.CountersTotal | src/SeatBooking.js:73-80 | the counters `SelectedCount`, `BookedCount` and `AvailableCount` (each the length of the filtered flat list) add up to 80 on a well-formed grid |
| Queries.SeatIsCounted | src/SeatBooking.js:73-80 | a seat on the grid is counted under its own status, so that count is positive |
| Queries.StatusCountUpdateRow | src/SeatBooking.js:123-131 | replacing one row changes a grid count by exactly the difference of that row's counts |
| Queries.SeatPrice | src/SeatBooking.js:65-69 | the price is one of 1000, 750 and 500; it is 1000 exactly for rows ≤ 2 and 500 exactly for rows > 5 |
| Queries.SeatPriceNonIncreasing | src/SeatBooking.js:10-14 | a seat further back never costs more |
| Queries.TotalPriceIsQuote | src/SeatBooking.js:82-88 | `TotalPrice`, the per-row total (selected in row × row price), equals `QuotePrice` of the Selected seats, the per-seat sum used for the booking quote (line 152) |
| Queries.QuotePriceBounds | src/SeatBooking.js:152 | `QuotePrice` of any list of seats lies between 500 and 1000 per seat |
| Queries.RewriteKeepsWellFormed | src/SeatBooking.js:51-59 | the whole-grid rewrites (load, book, clear) keep the shape and every seat's identifier, row and column |
| Policy.Flipped | src/SeatBooking.js:127-131 | a click turns Available into Selected and Selected into Available, and never yields or leaves Booked |
| Policy.WithStatus | src/SeatBooking.js:123-131 | the copied grid differs from the original only in the one seat's status |
| Policy.Click | src/SeatBooking.js:106-140 | with `ClickOutcomeOf` deciding the guards in source order, a click keeps the shape and changes no seat other than the clicked one; the clicked seat flips when accepted and is left alone otherwise; the grid changes exactly when the click is accepted |
| Policy.ClickKeepsWellFormed | src/SeatBooking.js:123-131 | a click keeps the grid well formed |
| Policy.ClickOnBookedIsNoOp | src/SeatBooking.js:110-112 | `ClickOutcomeOf` is SeatBooked exactly when the seat is Booked, and then the grid is unchanged |
| Policy.ClickAtLimitIsNoOp | src/SeatBooking.js:114-121 | `ClickOutcomeOf` is LimitReached exactly when the seat is Available and 8 or more seats are Selected, and then the grid is unchanged |
| Policy.OrphanRefusalExactly | src/SeatBooking.js:90-136 | once the first two guards pass, `WouldViolateContinuity` on the flipped copy refuses the click (OrphanSeat) exactly when the seat is being deselected and both row neighbours exist and are Selected or Booked; otherwise the click is Toggled |
| Policy.OrphanRefusalNeverOnSelectOrRowEnd | src/SeatBooking.js:90-104 | selecting a seat, or clicking column 0 or the last column, is never refused by the continuity check |
| Policy.ClickSelectedCount | src/SeatBooking.js:123-131 | an accepted select adds one to the Selected count, an accepted deselect removes one, and a refused click changes nothing |
| Policy.ClickRespectsLimit | src/SeatBooking.js:114-121 | from at most 8 Selected seats, a click never goes above 8 |
| Policy.ClickKeepsBooked | src/SeatBooking.js:110-112 | a click leaves every Booked seat as it is |
| Policy.OrphanMayAppearElsewhere | src/SeatBooking.js:90-104 | with seat 0 Selected and seats 1–2 Available, selecting seat 2 is accepted and leaves seat 1 Available between two blockers: the rule is local, not a grid invariant |
| Booking.BookOutcomeOf | src/SeatBooking.js:142-158 | a booking commits exactly when it is confirmed and 1 to 8 seats are Selected; with 0 seats it is NothingSelected, with more than 8 OverLimit; a commit counts the Selected seats |
| Booking.PromoteSelected | src/SeatBooking.js:160-168 | every Selected seat becomes Booked and every other seat is unchanged |
| Booking.Book | src/SeatBooking.js:142-181 | a booking that does not commit leaves the grid unchanged; one that commits promotes every Selected seat |
| Booking.QuoteIsScreenTotal | src/SeatBooking.js:152 | the total in a commit's quote equals the on-screen total and lies between 500 and 1000 per seat |
| Booking.BookCounts | src/SeatBooking.js:160-168 | after a commit nothing is Selected, Booked grows by exactly the seats booked, and Available is unchanged |
| Booking.BookKeepsBooked | src/SeatBooking.js:163-168 | booking never un-books a seat |
| Booking.ClearSelection | src/SeatBooking.js:184-194 | every Selected seat becomes Available and every other seat is unchanged |
| Booking.ClearIdempotent | src/SeatBooking.js:184-194 | clearing twice is clearing once |
| Booking.ClearWithoutSelectionIsNoOp | src/SeatBooking.js:184-194 | clearing a grid with nothing Selected returns it unchanged |
| Booking.ClearCounts | src/SeatBooking.js:184-194 | after clearing nothing is Selected, Available grew by the former selection, and Booked is unchanged |
| Booking.ResetGrid | src/SeatBooking.js:196-200 | a confirmed reset yields exactly the initial grid, and an unconfirmed one changes nothing |
| Booking.ResetClearsEverything | src/SeatBooking.js:196-200 | after a confirmed reset all 80 seats are Available and none is Selected or Booked |
| Store.BookedIds | src/SeatBooking.js:171-174 | the persisted list has one entry per Booked seat |
| Store.BookedIdsRowMajor | src/SeatBooking.js:171-174 | the persisted list holds the identifiers of Booked seats of the grid, in strictly increasing row-major order, with no repetitions |
| Store.BookedIdsExactly | src/SeatBooking.js:171-174 | "r-c" is in the persisted list exactly when seat [r][c] is Booked |
| Store.MergeStored | src/SeatBooking.js:51-59 | a seat whose identifier is stored becomes Booked, and every other seat is unchanged |
| Store.LoadBooksStoredSeats | src/SeatBooking.js:44-59 | the grid `Load` gives is well formed, and seat [r][c] is Booked exactly when "r-c" is stored, Available otherwise |
| Store.LoadSelectsNothing | src/SeatBooking.js:51-59 | nothing is Selected in a freshly loaded grid |
| Store.LoadPersisted | src/SeatBooking.js:51-59 | loading the list persisted from a grid gives back that grid with its selection cleared |
| Store.PersistRoundTrip | src/SeatBooking.js:170-175 | after a commit, loading the persisted list reproduces exactly the booked grid |
| Store.ResetPersistsNothing | src/SeatBooking.js:200-202 | after a reset no seat would be persisted, matching the removal of the stored key |
| Store.FlattenRowMajor | src/SeatBooking.js:171-172 | a well-formed grid flattens in strictly increasing row-major order |
| Store.FilterRowMajor | src/SeatBooking.js:173 | filtering keeps row-major order |
| Engine.SeatBooking.constructor | src/SeatBooking.js:41-63 | the first render plus the load effect gives the loaded grid, well formed and with nothing Selected |
| Engine.SeatBooking.SeatClick | src/SeatBooking.js:106-140 | the handler's steps (guard, count, copy, assign, continuity check) give exactly the click function's outcome and grid |
| Engine.SeatBooking.BookSeats | src/SeatBooking.js:142-181 | the handler gives exactly the booking outcome and grid; a commit returns the list to persist, derived from the booked grid, and nothing else writes storage |
| Engine.SeatBooking.ClearSelected | src/SeatBooking.js:184-194 | the new grid is the cleared grid |
| Engine.SeatBooking.Reset | src/SeatBooking.js:196-206 | a confirmed reset rebuilds the initial grid and erases the stored list; otherwise nothing changes |
| Engine.MarkOne | src/SeatBooking.js:163-168 | one step of the commit loop books the listed seat if it is still Selected and touches no other seat |
| Engine.MarkedAll | src/SeatBooking.js:163-168 | once every Selected seat has been marked, the copy is the promoted grid |
| Engine.MarkListedBooked | src/SeatBooking.js:161-168 | the `forEach` over the Selected seats, looking each up by its own row and column, books exactly the Selected seats |
| Engine.Step | src/SeatBooking.js:106-206 | each event is the transition of its handler (click, book, clear, reset), and it keeps the grid well formed |
| Engine.Run | src/SeatBooking.js:106-206 | any sequence of clicks, bookings, clears and resets on the grid keeps it well formed |
| Engine.StepKeepsInvariant | src/SeatBooking.js:114-121 | each handler keeps the grid well formed with at most 8 seats Selected |
| Engine.RunKeepsInvariant | src/SeatBooking.js:114-121 | no event sequence takes the Selected count above 8 |
| Engine.LoadEstablishesInvariant | src/SeatBooking.js:44-59 | every session starts from a grid where the invariant holds |
| Engine.RunKeepsBooked | src/SeatBooking.js:196-200 | a Booked seat stays Booked through every event sequence without a confirmed reset |

## Left out

- Rendering (JSX, row letters, seat numbers, CSS classes, the disabled state of buttons): presentation only.
- React state plumbing (`useState`, `useEffect`, updater functions, batching): each handler is one transition from the current grid to the next.
- `window.alert` and `window.confirm`: alerts become the `ClickOutcome` and `BookOutcome` values, and confirmation answers become boolean parameters; message texts and currency formatting are not modelled.
- `localStorage`, `JSON.parse`/`JSON.stringify`, the `try`/`catch` blocks and `console.error`: foreign I/O. The stored value is a `seq<string>`, and an absent, malformed or non-array value is the empty sequence. A stored array's non-string entries can never equal a seat identifier, so dropping them changes nothing. A failed write does not affect the grid in the source either. The storage key string is not modelled.
- Clicks outside the grid: the source has no such path (it would fail on an undefined row), so `SeatClick` and `Click` require a position on the grid.
