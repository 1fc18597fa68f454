/** The seat click: a Booked seat ignores the click, a ninth seat cannot be
    selected, and a click that would leave the clicked seat Available between
    two blocking neighbours is refused. */
module Policy {
  import opened Seats
  import opened Queries

  /** Why a click did or did not change the grid. */
  datatype ClickOutcome = Toggled | SeatBooked | LimitReached | OrphanSeat

  /** Available and Selected swap; Booked is left as it is. */
  function Flipped(st: Status): (t: Status)
    ensures st == Booked <==> t == Booked
    ensures st != Booked ==> t != st
  {
    match st
    case Available => Selected
    case Selected => Available
    case Booked => Booked
  }

  predicate Blocking(st: Status)
  {
    st == Selected || st == Booked
  }

  /** g with the single seat [r][c] given the status st; nothing else changes. */
  function WithStatus(g: Grid, r: int, c: int, st: Status): (h: Grid)
    requires OnGrid(g, r, c)
    ensures |h| == |g| && forall i :: 0 <= i < |g| ==> |h[i]| == |g[i]|
    ensures forall i, j :: OnGrid(g, i, j) && (i != r || j != c) ==> h[i][j] == g[i][j]
    ensures h[r][c] == g[r][c].(status := st)
  {
    g[r := g[r][c := g[r][c].(status := st)]]
  }

  /** The seat [r][c] of g is Available while both of its row neighbours exist and block. */
  predicate WouldViolateContinuity(g: Grid, r: int, c: int)
    requires OnGrid(g, r, c)
  {
    && 0 < c && c + 1 < |g[r]|
    && Blocking(g[r][c - 1].status)
    && Blocking(g[r][c + 1].status)
    && g[r][c].status == Available
  }

  function ClickOutcomeOf(g: Grid, r: int, c: int): ClickOutcome
    requires OnGrid(g, r, c)
  {
    var current := g[r][c];
    if current.status == Booked then SeatBooked
    else if current.status == Available && SelectedCount(g) >= MAX_SEATS_PER_BOOKING then LimitReached
    else if WouldViolateContinuity(WithStatus(g, r, c, Flipped(current.status)), r, c) then OrphanSeat
    else Toggled
  }

  /** The grid after clicking seat [r][c]. */
  function Click(g: Grid, r: int, c: int): (h: Grid)
    requires OnGrid(g, r, c)
    ensures |h| == |g| && forall i :: 0 <= i < |g| ==> |h[i]| == |g[i]|
    ensures forall i, j :: OnGrid(g, i, j) && (i != r || j != c) ==> h[i][j] == g[i][j]
    ensures h[r][c] == if ClickOutcomeOf(g, r, c) == Toggled
                       then g[r][c].(status := Flipped(g[r][c].status)) else g[r][c]
    ensures h == g <==> ClickOutcomeOf(g, r, c) != Toggled
  {
    if ClickOutcomeOf(g, r, c) == Toggled then WithStatus(g, r, c, Flipped(g[r][c].status)) else g
  }

  /** A click keeps every seat's identifier, row and column, so a well-formed grid stays well formed. */
  lemma ClickKeepsWellFormed(g: Grid, r: int, c: int)
    requires WellFormed(g) && OnGrid(g, r, c)
    ensures WellFormed(Click(g, r, c))
  {
  }

  /** A click is refused as SeatBooked exactly when the seat is Booked, and then nothing changes. */
  lemma ClickOnBookedIsNoOp(g: Grid, r: int, c: int)
    requires OnGrid(g, r, c)
    ensures ClickOutcomeOf(g, r, c) == SeatBooked <==> g[r][c].status == Booked
    ensures g[r][c].status == Booked ==> Click(g, r, c) == g
  {
  }

  /** A click is refused as LimitReached exactly when it would select a seat
      while MAX_SEATS_PER_BOOKING seats are Selected, and then nothing changes. */
  lemma ClickAtLimitIsNoOp(g: Grid, r: int, c: int)
    requires OnGrid(g, r, c)
    ensures ClickOutcomeOf(g, r, c) == LimitReached <==>
      g[r][c].status == Available && SelectedCount(g) >= MAX_SEATS_PER_BOOKING
    ensures ClickOutcomeOf(g, r, c) == LimitReached ==> Click(g, r, c) == g
  {
  }

  /** Once the first two guards pass, the continuity check refuses a click
      exactly when the clicked seat is being deselected and both of its row
      neighbours exist and block; otherwise the click is accepted. */
  lemma OrphanRefusalExactly(g: Grid, r: int, c: int)
    requires OnGrid(g, r, c) && g[r][c].status != Booked
    requires !(g[r][c].status == Available && SelectedCount(g) >= MAX_SEATS_PER_BOOKING)
    ensures ClickOutcomeOf(g, r, c) == OrphanSeat <==>
      && g[r][c].status == Selected
      && 0 < c < |g[r]| - 1
      && Blocking(g[r][c - 1].status)
      && Blocking(g[r][c + 1].status)
    ensures ClickOutcomeOf(g, r, c) == Toggled <==>
      !(&& g[r][c].status == Selected
        && 0 < c < |g[r]| - 1
        && Blocking(g[r][c - 1].status)
        && Blocking(g[r][c + 1].status))
  {
    var h := WithStatus(g, r, c, Flipped(g[r][c].status));
    if 0 < c < |g[r]| - 1 {
      assert h[r][c - 1] == g[r][c - 1] && h[r][c + 1] == g[r][c + 1];
    }
  }

  /** Consequences: selecting a seat, or clicking a seat at either end of a
      row, is never refused by the continuity check. */
  lemma OrphanRefusalNeverOnSelectOrRowEnd(g: Grid, r: int, c: int)
    requires OnGrid(g, r, c)
    requires g[r][c].status == Available || c == 0 || c == |g[r]| - 1
    ensures ClickOutcomeOf(g, r, c) != OrphanSeat
  {
    if g[r][c].status != Booked && !(g[r][c].status == Available && SelectedCount(g) >= MAX_SEATS_PER_BOOKING) {
      OrphanRefusalExactly(g, r, c);
    }
  }

  /** A click changes the Selected count by exactly the seat it toggles. */
  lemma ClickSelectedCount(g: Grid, r: int, c: int)
    requires OnGrid(g, r, c)
    ensures SelectedCount(Click(g, r, c)) ==
      SelectedCount(g)
      + Indicator(ClickOutcomeOf(g, r, c) == Toggled && g[r][c].status == Available)
      - Indicator(ClickOutcomeOf(g, r, c) == Toggled && g[r][c].status == Selected)
  {
    if ClickOutcomeOf(g, r, c) == Toggled {
      var x := g[r][c].(status := Flipped(g[r][c].status));
      StatusCountUpdateRow(g, r, g[r][c := x], Selected);
      CountUpdate(g[r], c, x, Selected);
    }
  }

  /** A click never takes the Selected count above the limit, nor by more than one seat. */
  lemma ClickRespectsLimit(g: Grid, r: int, c: int)
    requires OnGrid(g, r, c) && SelectedCount(g) <= MAX_SEATS_PER_BOOKING
    ensures SelectedCount(Click(g, r, c)) <= MAX_SEATS_PER_BOOKING
  {
    ClickSelectedCount(g, r, c);
  }

  /** A Booked seat (the clicked one or any other) is still Booked after a click. */
  lemma ClickKeepsBooked(g: Grid, r: int, c: int, i: int, j: int)
    requires OnGrid(g, r, c) && OnGrid(g, i, j) && g[i][j].status == Booked
    ensures Click(g, r, c)[i][j] == g[i][j]
  {
  }

  /** The continuity check is local: a click it accepts may leave a different
      Available seat between two blockers. With seat 0 of a row Selected and
      seats 1 and 2 Available, selecting seat 2 is accepted and isolates seat 1. */
  lemma OrphanMayAppearElsewhere(g: Grid, r: int)
    requires 0 <= r < |g| && |g[r]| >= 3
    requires g[r][0].status == Selected && g[r][1].status == Available && g[r][2].status == Available
    requires SelectedCount(g) < MAX_SEATS_PER_BOOKING
    ensures ClickOutcomeOf(g, r, 2) == Toggled
    ensures var h := Click(g, r, 2);
            h[r][1].status == Available && Blocking(h[r][0].status) && Blocking(h[r][2].status)
  {
    OrphanRefusalNeverOnSelectOrRowEnd(g, r, 2);
  }
}
