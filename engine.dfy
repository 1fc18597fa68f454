/** The booking screen as a state holder: the current grid and the four
    handlers that replace it (seat click, book, clear, reset), plus the
    event-sequence view in which the capacity bound and the permanence of
    bookings are proved for whole sessions. */
module Engine {
  import opened Seats
  import opened Queries
  import opened Policy
  import opened Booking
  import opened Store

  datatype Option<T> = None | Some(value: T)

  class SeatBooking {
    /** The grid currently on screen. */
    var seats: Grid

    ghost predicate Valid()
      reads this
    {
      WellFormed(seats)
    }

    /** The first render builds a fresh grid; the load effect then merges the
        stored list of Booked identifiers into it. */
    constructor (stored: seq<string>)
      ensures Valid() && seats == Load(stored)
      ensures SelectedCount(seats) == 0
    {
      var initial := InitializeSeats();
      seats := MergeStored(initial, stored);
      LoadSelectsNothing(stored);
    }

    /** A click on seat [r][c]: copy the grid, flip the seat, and keep the copy
        only if the seat was not Booked, the limit allows it, and the
        continuity check passes. */
    method SeatClick(r: int, c: int) returns (outcome: ClickOutcome)
      requires Valid() && OnGrid(seats, r, c)
      modifies this
      ensures Valid()
      ensures outcome == ClickOutcomeOf(old(seats), r, c)
      ensures seats == Click(old(seats), r, c)
    {
      var current := seats[r][c];
      if current.status == Booked {
        return SeatBooked;
      }
      var currentlySelectedCount := SelectedCount(seats);
      if current.status == Available && currentlySelectedCount >= MAX_SEATS_PER_BOOKING {
        return LimitReached;
      }
      var updated: Grid := seats;
      var seat: Seat := updated[r][c];
      if seat.status == Available {
        seat := seat.(status := Selected);
      } else if seat.status == Selected {
        seat := seat.(status := Available);
      }
      updated := updated[r := updated[r][c := seat]];
      if WouldViolateContinuity(updated, r, c) {
        return OrphanSeat;
      }
      ClickKeepsWellFormed(seats, r, c);
      seats := updated;
      return Toggled;
    }

    /** The booking button: list the Selected seats, refuse an empty or
        oversized selection, quote the price, and on confirmation book each
        listed seat that is still Selected. A commit returns the list to persist. */
    method BookSeats(confirmed: bool) returns (outcome: BookOutcome, persisted: Option<seq<string>>)
      requires Valid()
      modifies this
      ensures Valid()
      ensures outcome == BookOutcomeOf(old(seats), confirmed)
      ensures seats == Book(old(seats), confirmed)
      ensures persisted == if outcome.Committed? then Some(BookedIds(seats)) else None
    {
      var selectedSeats := SeatsWith(seats, Selected);
      if |selectedSeats| == 0 {
        return NothingSelected, None;
      }
      if |selectedSeats| > MAX_SEATS_PER_BOOKING {
        return OverLimit, None;
      }
      var totalPrice := QuotePrice(selectedSeats);
      if !confirmed {
        return NotConfirmed, None;
      }
      var updated := MarkListedBooked(seats, selectedSeats);
      RewriteKeepsWellFormed(seats, Promote);
      var allBookedIds := BookedIds(updated);
      seats := updated;
      return Committed(|selectedSeats|, totalPrice), Some(allBookedIds);
    }

    /** The clear button: every Selected seat becomes Available. */
    method ClearSelected()
      requires Valid()
      modifies this
      ensures Valid()
      ensures seats == ClearSelection(old(seats))
    {
      RewriteKeepsWellFormed(seats, Clear);
      seats := ClearSelection(seats);
    }

    /** The reset button: on confirmation the grid is rebuilt and the caller is
        told to erase the stored list. */
    method Reset(confirmed: bool) returns (eraseStored: bool)
      requires Valid()
      modifies this
      ensures Valid()
      ensures eraseStored == confirmed
      ensures seats == ResetGrid(old(seats), confirmed)
    {
      if !confirmed {
        return false;
      }
      seats := InitializeSeats();
      return true;
    }
  }

  /** x, made Booked if it is one of the listed seats. */
  function BookedIfListed(x: Seat, listed: seq<Seat>): Seat
  {
    if x in listed then x.(status := Booked) else x
  }

  /** updated is g with exactly the listed seats made Booked. */
  ghost predicate MarkedUpTo(g: Grid, updated: Grid, listed: seq<Seat>)
  {
    && |updated| == |g|
    && (forall r :: 0 <= r < |g| ==> |updated[r]| == |g[r]|)
    && forall r, c :: OnGrid(g, r, c) ==> updated[r][c] == BookedIfListed(g[r][c], listed)
  }

  /** updated with the Promote rewrite applied to seat [row][seat] alone. */
  function BookIfSelected(updated: Grid, row: int, seat: int): Grid
    requires OnGrid(updated, row, seat)
  {
    updated[row := updated[row][seat := Rewritten(updated[row][seat], Promote)]]
  }

  /** One step of the commit loop: marking the next Selected seat of g. */
  lemma MarkOne(g: Grid, updated: Grid, listed: seq<Seat>, x: Seat)
    requires Labelled(g) && MarkedUpTo(g, updated, listed)
    requires OnGrid(g, x.row, x.seat) && g[x.row][x.seat] == x && x.status == Selected
    ensures MarkedUpTo(g, BookIfSelected(updated, x.row, x.seat), listed + [x])
  {
    forall r, c | OnGrid(g, r, c) && (r != x.row || c != x.seat) ensures g[r][c] != x {
    }
  }

  /** Once every Selected seat of g is marked, the result is the promoted grid. */
  lemma MarkedAll(g: Grid, updated: Grid)
    requires MarkedUpTo(g, updated, SeatsWith(g, Selected))
    ensures updated == PromoteSelected(g)
  {
    forall r | 0 <= r < |g| ensures updated[r] == PromoteSelected(g)[r] {
    }
  }

  /** The commit loop: each listed seat, looked up by its own row and column,
      becomes Booked if it is still Selected. Given the Selected seats of a
      well-formed grid, it books exactly those seats. */
  method MarkListedBooked(g: Grid, selectedSeats: seq<Seat>) returns (updated: Grid)
    requires WellFormed(g) && selectedSeats == SeatsWith(g, Selected)
    ensures updated == PromoteSelected(g)
  {
    updated := g;
    var i := 0;
    while i < |selectedSeats|
      invariant 0 <= i <= |selectedSeats|
      invariant MarkedUpTo(g, updated, selectedSeats[..i])
    {
      var selected := selectedSeats[i];
      FlattenMember(g, selected);
      MarkOne(g, updated, selectedSeats[..i], selected);
      assert selectedSeats[..i + 1] == selectedSeats[..i] + [selected];
      var row, seat := selected.row, selected.seat;
      ghost var before := updated;
      if updated[row][seat].status == Selected {
        updated := updated[row := updated[row][seat := updated[row][seat].(status := Booked)]];
      } else {
        assert before[row][seat := before[row][seat]] == before[row];
      }
      assert updated == BookIfSelected(before, row, seat);
      i := i + 1;
    }
    assert selectedSeats[..i] == selectedSeats;
    MarkedAll(g, updated);
  }

  // ---------------------------------------------------------------------
  // Sessions: sequences of user events
  // ---------------------------------------------------------------------

  datatype Event = SeatClicked(row: int, seat: int) | BookPressed(confirmed: bool) | ClearPressed | ResetPressed(confirmed: bool)

  /** Clicks land on seats of the fixed grid. */
  predicate OnBoard(e: Event)
  {
    e.SeatClicked? ==> 0 <= e.row < ROWS && 0 <= e.seat < SEATS_PER_ROW
  }

  function Step(g: Grid, e: Event): (h: Grid)
    requires WellFormed(g) && OnBoard(e)
    ensures WellFormed(h)
  {
    match e
    case SeatClicked(r, c) => ClickKeepsWellFormed(g, r, c); Click(g, r, c)
    case BookPressed(confirmed) => RewriteKeepsWellFormed(g, Promote); Book(g, confirmed)
    case ClearPressed => RewriteKeepsWellFormed(g, Clear); ClearSelection(g)
    case ResetPressed(confirmed) => ResetGrid(g, confirmed)
  }

  function Run(g: Grid, events: seq<Event>): (h: Grid)
    requires WellFormed(g) && forall k :: 0 <= k < |events| ==> OnBoard(events[k])
    ensures WellFormed(h)
    decreases |events|
  {
    if |events| == 0 then g else Run(Step(g, events[0]), events[1..])
  }

  /** What holds after every event: the grid is well formed and at most
      MAX_SEATS_PER_BOOKING seats are Selected. */
  predicate Invariant(g: Grid)
  {
    WellFormed(g) && SelectedCount(g) <= MAX_SEATS_PER_BOOKING
  }

  lemma StepKeepsInvariant(g: Grid, e: Event)
    requires Invariant(g) && OnBoard(e)
    ensures Invariant(Step(g, e))
  {
    match e
    case SeatClicked(r, c) => ClickRespectsLimit(g, r, c);
    case BookPressed(confirmed) =>
      if BookOutcomeOf(g, confirmed).Committed? { BookCounts(g, confirmed); }
    case ClearPressed => ClearCounts(g);
    case ResetPressed(confirmed) => ResetClearsEverything(g);
  }

  /** No sequence of events takes the Selected count above the limit. */
  lemma {:induction false} RunKeepsInvariant(g: Grid, events: seq<Event>)
    requires Invariant(g) && forall k :: 0 <= k < |events| ==> OnBoard(events[k])
    ensures Invariant(Run(g, events))
    decreases |events|
  {
    if |events| > 0 {
      StepKeepsInvariant(g, events[0]);
      RunKeepsInvariant(Step(g, events[0]), events[1..]);
    }
  }

  /** Every session starts from the loaded grid, where the invariant holds. */
  lemma LoadEstablishesInvariant(stored: seq<string>)
    ensures Invariant(Load(stored))
  {
    LoadSelectsNothing(stored);
  }

  /** A Booked seat stays Booked through every event except a confirmed reset. */
  lemma {:induction false} RunKeepsBooked(g: Grid, events: seq<Event>, r: int, c: int)
    requires WellFormed(g) && forall k :: 0 <= k < |events| ==> OnBoard(events[k])
    requires forall k :: 0 <= k < |events| ==> events[k] != ResetPressed(true)
    requires OnGrid(g, r, c) && g[r][c].status == Booked
    ensures Run(g, events)[r][c] == g[r][c]
    decreases |events|
  {
    if |events| > 0 {
      var h := Step(g, events[0]);
      match events[0] {
        case SeatClicked(i, j) => ClickKeepsBooked(g, i, j, r, c);
        case BookPressed(confirmed) => BookKeepsBooked(g, confirmed, r, c);
        case ClearPressed =>
        case ResetPressed(confirmed) =>
      }
      RunKeepsBooked(h, events[1..], r, c);
    }
  }
}
