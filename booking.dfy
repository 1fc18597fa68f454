/** Booking the selection, clearing it, and resetting the whole grid. */
module Booking {
  import opened Seats
  import opened Queries

  /** What a press of the booking button led to. A committed booking carries
      the quote the user confirmed: the number of seats and their total price. */
  datatype BookOutcome = Committed(count: nat, total: int) | NothingSelected | OverLimit | NotConfirmed

  /** The user's answer to the confirmation prompt is the parameter confirmed;
      the prompt is shown only when 1 to MAX_SEATS_PER_BOOKING seats are Selected. */
  function BookOutcomeOf(g: Grid, confirmed: bool): (o: BookOutcome)
    ensures o.Committed? <==> confirmed && 0 < SelectedCount(g) <= MAX_SEATS_PER_BOOKING
    ensures o == NothingSelected <==> SelectedCount(g) == 0
    ensures o == OverLimit <==> SelectedCount(g) > MAX_SEATS_PER_BOOKING
    ensures o.Committed? ==> o.count == SelectedCount(g)
  {
    var selected := SeatsWith(g, Selected);
    if |selected| == 0 then NothingSelected
    else if |selected| > MAX_SEATS_PER_BOOKING then OverLimit
    else if !confirmed then NotConfirmed
    else Committed(|selected|, QuotePrice(selected))
  }

  /** The grid after a booking commit: every Selected seat becomes Booked. */
  function PromoteSelected(g: Grid): (h: Grid)
    ensures |h| == |g| && forall r :: 0 <= r < |g| ==> |h[r]| == |g[r]|
    ensures forall r, c :: OnGrid(g, r, c) ==>
      h[r][c] == g[r][c].(status := if g[r][c].status == Selected then Booked else g[r][c].status)
  {
    RewriteGrid(g, Promote)
  }

  /** The grid after pressing the booking button: promoted if committed, else unchanged. */
  function Book(g: Grid, confirmed: bool): (h: Grid)
    ensures !BookOutcomeOf(g, confirmed).Committed? ==> h == g
    ensures BookOutcomeOf(g, confirmed).Committed? ==> h == PromoteSelected(g)
  {
    if BookOutcomeOf(g, confirmed).Committed? then PromoteSelected(g) else g
  }

  /** The total in a committed booking's quote is the total shown on screen. */
  lemma QuoteIsScreenTotal(g: Grid, confirmed: bool)
    requires Labelled(g) && BookOutcomeOf(g, confirmed).Committed?
    ensures BookOutcomeOf(g, confirmed).total == TotalPrice(g)
    ensures ECONOMY * SelectedCount(g) <= TotalPrice(g) <= PREMIUM * SelectedCount(g)
  {
    TotalPriceIsQuote(g);
    QuotePriceBounds(SeatsWith(g, Selected));
  }

  /** A committed booking books exactly the Selected seats: afterwards nothing
      is Selected, the Booked count grew by the seats booked, and the Available
      count is unchanged. */
  lemma BookCounts(g: Grid, confirmed: bool)
    requires BookOutcomeOf(g, confirmed).Committed?
    ensures SelectedCount(Book(g, confirmed)) == 0
    ensures BookedCount(Book(g, confirmed)) == BookedCount(g) + BookOutcomeOf(g, confirmed).count
    ensures AvailableCount(Book(g, confirmed)) == AvailableCount(g)
  {
    FlattenRewrite(g, Promote);
    CountAfterPromote(Flatten(g));
  }

  /** Booking never un-books a seat. */
  lemma BookKeepsBooked(g: Grid, confirmed: bool, r: int, c: int)
    requires OnGrid(g, r, c) && g[r][c].status == Booked
    ensures Book(g, confirmed)[r][c] == g[r][c]
  {
  }

  // ---------------------------------------------------------------------
  // Clearing the selection
  // ---------------------------------------------------------------------

  /** Every Selected seat becomes Available; every other seat is left as it is. */
  function ClearSelection(g: Grid): (h: Grid)
    ensures |h| == |g| && forall r :: 0 <= r < |g| ==> |h[r]| == |g[r]|
    ensures forall r, c :: OnGrid(g, r, c) ==>
      h[r][c] == g[r][c].(status := if g[r][c].status == Selected then Available else g[r][c].status)
  {
    RewriteGrid(g, Clear)
  }

  /** Clearing twice is clearing once. */
  lemma ClearIdempotent(g: Grid)
    ensures ClearSelection(ClearSelection(g)) == ClearSelection(g)
  {
    var h := ClearSelection(g);
    forall r | 0 <= r < |g| ensures ClearSelection(h)[r] == h[r] {
    }
  }

  /** Clearing a grid with nothing Selected leaves it unchanged. */
  lemma ClearWithoutSelectionIsNoOp(g: Grid)
    requires SelectedCount(g) == 0
    ensures ClearSelection(g) == g
  {
    forall r, c | OnGrid(g, r, c) ensures g[r][c].status != Selected {
      SeatIsCounted(g, r, c);
    }
    forall r | 0 <= r < |g| ensures ClearSelection(g)[r] == g[r] {
    }
  }

  /** After clearing, nothing is Selected, the formerly Selected seats are
      Available, and the Booked count is unchanged. */
  lemma ClearCounts(g: Grid)
    ensures SelectedCount(ClearSelection(g)) == 0
    ensures AvailableCount(ClearSelection(g)) == AvailableCount(g) + SelectedCount(g)
    ensures BookedCount(ClearSelection(g)) == BookedCount(g)
  {
    FlattenRewrite(g, Clear);
    CountAfterClear(Flatten(g));
  }

  // ---------------------------------------------------------------------
  // Reset
  // ---------------------------------------------------------------------

  /** The grid after the reset button: the initial grid if the user confirms. */
  function ResetGrid(g: Grid, confirmed: bool): (h: Grid)
    ensures confirmed ==> h == InitialGrid()
    ensures !confirmed ==> h == g
  {
    if confirmed then InitialGrid() else g
  }

  /** A confirmed reset leaves all 80 seats Available and none Selected or Booked. */
  lemma ResetClearsEverything(g: Grid)
    ensures AvailableCount(ResetGrid(g, true)) == ROWS * SEATS_PER_ROW
    ensures SelectedCount(ResetGrid(g, true)) == 0
    ensures BookedCount(ResetGrid(g, true)) == 0
  {
    var h := InitialGrid();
    var s := Flatten(h);
    forall x | x in s ensures x.status == Available {
      FlattenMember(h, x);
    }
    CountAbsent(s, Selected);
    CountAbsent(s, Booked);
    CountersTotal(h);
  }
}
