/** What is persisted: the identifiers of the Booked seats in row-major order,
    and how a stored list of identifiers is merged into a fresh grid on load.
    The stored value is modelled as the list itself; an absent or non-list
    value is the empty list. */
module Store {
  import opened Seats
  import opened Queries
  import opened Booking

  /** The list written to storage after a booking. */
  function BookedIds(g: Grid): (ids: seq<string>)
    ensures |ids| == BookedCount(g)
  {
    var booked := SeatsWith(g, Booked);
    seq(|booked|, i requires 0 <= i < |booked| => booked[i].id)
  }

  /** Every seat whose identifier is in stored becomes Booked; the others are left as they are. */
  function MergeStored(g: Grid, stored: seq<string>): (h: Grid)
    ensures |h| == |g| && forall r :: 0 <= r < |g| ==> |h[r]| == |g[r]|
    ensures forall r, c :: OnGrid(g, r, c) ==>
      h[r][c] == g[r][c].(status := if g[r][c].id in stored then Booked else g[r][c].status)
  {
    RewriteGrid(g, MarkStored(stored))
  }

  /** The grid the component shows after loading the stored list. */
  function Load(stored: seq<string>): Grid
  {
    MergeStored(InitialGrid(), stored)
  }

  /** The position of a seat in row-major order. */
  function Key(x: Seat): int
  {
    x.row * SEATS_PER_ROW + x.seat
  }

  predicate RowMajor(s: seq<Seat>)
  {
    forall i, j :: 0 <= i < j < |s| ==> Key(s[i]) < Key(s[j])
  }

  lemma RowMajorConcat(a: seq<Seat>, b: seq<Seat>)
    requires RowMajor(a) && RowMajor(b)
    requires forall i, j :: 0 <= i < |a| && 0 <= j < |b| ==> Key(a[i]) < Key(b[j])
    ensures RowMajor(a + b)
  {
  }

  lemma {:induction false} FlattenRowMajor(g: Grid)
    requires RowsOfWidth(g) && Labelled(g)
    ensures RowMajor(Flatten(g))
    ensures forall x :: x in Flatten(g) ==> 0 <= Key(x) < SEATS_PER_ROW * |g|
    decreases |g|
  {
    if |g| > 0 {
      var n := |g| - 1;
      assert RowsOfWidth(g[..n]) && Labelled(g[..n]);
      FlattenRowMajor(g[..n]);
      forall x | x in g[n] ensures SEATS_PER_ROW * n <= Key(x) < SEATS_PER_ROW * |g| {
        var c :| 0 <= c < |g[n]| && g[n][c] == x;
      }
      RowMajorConcat(Flatten(g[..n]), g[n]);
    }
  }

  lemma {:induction false} FilterRowMajor(s: seq<Seat>, st: Status)
    requires RowMajor(s)
    ensures RowMajor(Filter(s, st))
    decreases |s|
  {
    if |s| > 0 {
      FilterRowMajor(s[1..], st);
      var rest := Filter(s[1..], st);
      forall j | 0 <= j < |rest| ensures Key(s[0]) < Key(rest[j]) {
        assert rest[j] in s[1..];
      }
    }
  }

  /** The persisted list is exactly the identifiers of the Booked seats, one
      per seat, in strictly increasing row-major order, without repetitions. */
  lemma BookedIdsRowMajor(g: Grid)
    requires WellFormed(g)
    ensures RowMajor(SeatsWith(g, Booked))
    ensures forall i :: 0 <= i < |BookedIds(g)| ==>
      var x := SeatsWith(g, Booked)[i];
      x.status == Booked && OnGrid(g, x.row, x.seat) && g[x.row][x.seat] == x
      && BookedIds(g)[i] == SeatId(x.row, x.seat)
    ensures forall i, j :: 0 <= i < j < |BookedIds(g)| ==> BookedIds(g)[i] != BookedIds(g)[j]
  {
    FlattenRowMajor(g);
    FilterRowMajor(Flatten(g), Booked);
    var booked := SeatsWith(g, Booked);
    forall i | 0 <= i < |booked| ensures OnGrid(g, booked[i].row, booked[i].seat)
                                      && g[booked[i].row][booked[i].seat] == booked[i] {
      FlattenMember(g, booked[i]);
    }
    forall i, j | 0 <= i < j < |booked| ensures booked[i].id != booked[j].id {
      IdsDistinct(g, booked[i].row, booked[i].seat, booked[j].row, booked[j].seat);
    }
  }

  /** Seat "r-c" is in the persisted list exactly when seat [r][c] is Booked. */
  lemma BookedIdsExactly(g: Grid, r: int, c: int)
    requires WellFormed(g) && OnGrid(g, r, c)
    ensures SeatId(r, c) in BookedIds(g) <==> g[r][c].status == Booked
  {
    var booked := SeatsWith(g, Booked);
    var ids := BookedIds(g);
    if SeatId(r, c) in ids {
      var k :| 0 <= k < |ids| && ids[k] == SeatId(r, c);
      var x := booked[k];
      FlattenMember(g, x);
      SeatIdInjective(x.row, x.seat, r, c);
    }
    if g[r][c].status == Booked {
      assert g[r][c] in booked;
      var k :| 0 <= k < |booked| && booked[k] == g[r][c];
      assert ids[k] == SeatId(r, c);
    }
  }

  /** Loading keeps the grid well formed and books exactly the seats whose identifiers are stored. */
  lemma LoadBooksStoredSeats(stored: seq<string>, r: int, c: int)
    requires OnGrid(InitialGrid(), r, c)
    ensures WellFormed(Load(stored))
    ensures Load(stored)[r][c].status == (if SeatId(r, c) in stored then Booked else Available)
  {
    RewriteKeepsWellFormed(InitialGrid(), MarkStored(stored));
  }

  /** A freshly loaded grid has nothing Selected. */
  lemma LoadSelectsNothing(stored: seq<string>)
    ensures WellFormed(Load(stored)) && SelectedCount(Load(stored)) == 0
  {
    var h := Load(stored);
    RewriteKeepsWellFormed(InitialGrid(), MarkStored(stored));
    forall x | x in Flatten(h) ensures x.status != Selected {
      FlattenMember(h, x);
    }
    CountAbsent(Flatten(h), Selected);
  }

  /** Loading the list persisted from a grid gives back that grid with its selection cleared. */
  lemma LoadPersisted(g: Grid)
    requires WellFormed(g)
    ensures Load(BookedIds(g)) == ClearSelection(g)
  {
    var h, k := Load(BookedIds(g)), ClearSelection(g);
    forall r | 0 <= r < |g| ensures h[r] == k[r] {
      forall c | 0 <= c < |g[r]| ensures h[r][c] == k[r][c] {
        BookedIdsExactly(g, r, c);
      }
    }
  }

  /** After a committed booking, loading what was persisted reproduces the booked grid. */
  lemma PersistRoundTrip(g: Grid, confirmed: bool)
    requires WellFormed(g) && BookOutcomeOf(g, confirmed).Committed?
    ensures Load(BookedIds(Book(g, confirmed))) == Book(g, confirmed)
  {
    var h := Book(g, confirmed);
    RewriteKeepsWellFormed(g, Promote);
    LoadPersisted(h);
    BookCounts(g, confirmed);
    ClearWithoutSelectionIsNoOp(h);
  }

  /** After a reset the grid persists nothing. */
  lemma ResetPersistsNothing(g: Grid)
    ensures BookedIds(ResetGrid(g, true)) == []
  {
    ResetClearsEverything(g);
  }
}
