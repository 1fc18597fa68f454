/** Read-only queries over a grid snapshot: the flattened seat list, the
    three status counters, the per-seat rewrites behind clearing, booking and
    loading, and the row-based prices. */
module Queries {
  import opened Seats

  // ---------------------------------------------------------------------
  // Flattening and filtering
  // ---------------------------------------------------------------------

  /** The seats of all rows, row after row (row-major order). */
  function Flatten(g: Grid): (s: seq<Seat>)
    ensures forall r, c :: OnGrid(g, r, c) ==> g[r][c] in s
  {
    if |g| == 0 then [] else Flatten(g[..|g| - 1]) + g[|g| - 1]
  }

  /** The seats of s whose status is st, in their order in s. */
  function Filter(s: seq<Seat>, st: Status): (f: seq<Seat>)
    ensures |f| <= |s|
    ensures forall x :: x in f <==> x in s && x.status == st
  {
    if |s| == 0 then [] else (if s[0].status == st then [s[0]] else []) + Filter(s[1..], st)
  }

  function Count(s: seq<Seat>, st: Status): nat
  {
    |Filter(s, st)|
  }

  /** The seats of g whose status is st, in row-major order. */
  function SeatsWith(g: Grid, st: Status): seq<Seat>
  {
    Filter(Flatten(g), st)
  }

  function StatusCount(g: Grid, st: Status): nat
  {
    Count(Flatten(g), st)
  }

  function SelectedCount(g: Grid): nat { StatusCount(g, Selected) }

  function BookedCount(g: Grid): nat { StatusCount(g, Booked) }

  function AvailableCount(g: Grid): nat { StatusCount(g, Available) }

  function Indicator(b: bool): nat { if b then 1 else 0 }

  lemma {:induction false} FilterConcat(a: seq<Seat>, b: seq<Seat>, st: Status)
    ensures Filter(a + b, st) == Filter(a, st) + Filter(b, st)
    decreases |a|
  {
    if |a| > 0 {
      assert (a + b)[1..] == a[1..] + b;
      FilterConcat(a[1..], b, st);
    } else {
      assert a + b == b;
    }
  }

  /** Every seat of a labelled grid's flattening is the seat at its own position. */
  lemma {:induction false} FlattenMember(g: Grid, x: Seat)
    requires Labelled(g) && x in Flatten(g)
    ensures OnGrid(g, x.row, x.seat) && g[x.row][x.seat] == x
    decreases |g|
  {
    var n := |g| - 1;
    if x in Flatten(g[..n]) {
      assert Labelled(g[..n]);
      FlattenMember(g[..n], x);
    } else {
      var c :| 0 <= c < |g[n]| && g[n][c] == x;
    }
  }

  lemma {:induction false} FlattenLength(g: Grid)
    requires RowsOfWidth(g)
    ensures |Flatten(g)| == SEATS_PER_ROW * |g|
    decreases |g|
  {
    if |g| > 0 {
      assert RowsOfWidth(g[..|g| - 1]);
      FlattenLength(g[..|g| - 1]);
    }
  }

  // ---------------------------------------------------------------------
  // Counting
  // ---------------------------------------------------------------------

  /** Every seat has exactly one of the three statuses. */
  lemma {:induction false} CountPartition(s: seq<Seat>)
    ensures Count(s, Available) + Count(s, Selected) + Count(s, Booked) == |s|
    decreases |s|
  {
    if |s| > 0 {
      CountPartition(s[1..]);
    }
  }

  /** On a well-formed grid the three counters always add up to the 80 seats. */
  lemma CountersTotal(g: Grid)
    requires WellFormed(g)
    ensures AvailableCount(g) + SelectedCount(g) + BookedCount(g) == ROWS * SEATS_PER_ROW
  {
    CountPartition(Flatten(g));
    FlattenLength(g);
  }

  /** A seat at a grid position is counted under its own status. */
  lemma SeatIsCounted(g: Grid, r: int, c: int)
    requires OnGrid(g, r, c)
    ensures StatusCount(g, g[r][c].status) > 0
  {
    assert g[r][c] in Filter(Flatten(g), g[r][c].status);
  }

  /** A status no seat has is counted zero times. */
  lemma {:induction false} CountAbsent(s: seq<Seat>, st: Status)
    requires forall x :: x in s ==> x.status != st
    ensures Count(s, st) == 0
    decreases |s|
  {
    if |s| > 0 {
      CountAbsent(s[1..], st);
    }
  }

  lemma {:induction false} CountConcat(a: seq<Seat>, b: seq<Seat>, st: Status)
    ensures Count(a + b, st) == Count(a, st) + Count(b, st)
  {
    FilterConcat(a, b, st);
  }

  /** Replacing one seat changes a count by at most the two seats involved. */
  lemma {:induction false} CountUpdate(s: seq<Seat>, i: int, x: Seat, st: Status)
    requires 0 <= i < |s|
    ensures Count(s[i := x], st) == Count(s, st) - Indicator(s[i].status == st) + Indicator(x.status == st)
    decreases |s|
  {
    if i > 0 {
      assert s[i := x][1..] == s[1..][i - 1 := x];
      CountUpdate(s[1..], i - 1, x, st);
    } else {
      assert s[i := x][1..] == s[1..];
    }
  }

  /** Replacing one row changes a grid count by the difference of the row counts. */
  lemma {:induction false} StatusCountUpdateRow(g: Grid, r: int, row: seq<Seat>, st: Status)
    requires 0 <= r < |g|
    ensures StatusCount(g[r := row], st) == StatusCount(g, st) - Count(g[r], st) + Count(row, st)
    decreases |g|
  {
    var n := |g| - 1;
    var h := g[r := row];
    CountConcat(Flatten(g[..n]), g[n], st);
    CountConcat(Flatten(h[..n]), h[n], st);
    if r < n {
      assert h[..n] == g[..n][r := row];
      StatusCountUpdateRow(g[..n], r, row, st);
    } else {
      assert h[..n] == g[..n];
    }
  }

  // ---------------------------------------------------------------------
  // Per-seat rewrites applied to every seat of the grid
  // ---------------------------------------------------------------------

  /** Three per-seat rewrites, each applied to every seat of a grid. Clearing
      maps Clear over the grid directly, and the load effect maps MarkStored
      over it. Booking does not map: it copies the grid and books the listed
      seats one by one, and Engine.MarkListedBooked proves the result equal to
      applying Promote everywhere. */
  datatype Rewrite = Promote | Clear | MarkStored(ids: seq<string>)

  function Rewritten(x: Seat, w: Rewrite): (y: Seat)
    ensures y.id == x.id && y.row == x.row && y.seat == x.seat
  {
    match w
    case Promote => if x.status == Selected then x.(status := Booked) else x
    case Clear => if x.status == Selected then x.(status := Available) else x
    case MarkStored(ids) => if x.id in ids then x.(status := Booked) else x
  }

  function RewriteRow(s: seq<Seat>, w: Rewrite): (t: seq<Seat>)
    ensures |t| == |s|
  {
    seq(|s|, i requires 0 <= i < |s| => Rewritten(s[i], w))
  }

  function RewriteGrid(g: Grid, w: Rewrite): (h: Grid)
    ensures |h| == |g| && forall r :: 0 <= r < |g| ==> |h[r]| == |g[r]|
  {
    seq(|g|, r requires 0 <= r < |g| => RewriteRow(g[r], w))
  }

  /** A rewrite keeps the shape and the labels of a grid. */
  lemma RewriteKeepsWellFormed(g: Grid, w: Rewrite)
    requires WellFormed(g)
    ensures WellFormed(RewriteGrid(g, w))
  {
  }

  lemma {:induction false} FlattenRewrite(g: Grid, w: Rewrite)
    ensures Flatten(RewriteGrid(g, w)) == RewriteRow(Flatten(g), w)
    decreases |g|
  {
    if |g| > 0 {
      var n := |g| - 1;
      assert RewriteGrid(g, w)[..n] == RewriteGrid(g[..n], w);
      FlattenRewrite(g[..n], w);
      assert RewriteRow(Flatten(g[..n]) + g[n], w)
          == RewriteRow(Flatten(g[..n]), w) + RewriteRow(g[n], w);
    }
  }

  /** Promoting leaves no Selected seat and adds the Selected seats to the Booked ones. */
  lemma {:induction false} CountAfterPromote(s: seq<Seat>)
    ensures Count(RewriteRow(s, Promote), Selected) == 0
    ensures Count(RewriteRow(s, Promote), Booked) == Count(s, Booked) + Count(s, Selected)
    ensures Count(RewriteRow(s, Promote), Available) == Count(s, Available)
    decreases |s|
  {
    if |s| > 0 {
      assert RewriteRow(s, Promote)[1..] == RewriteRow(s[1..], Promote);
      CountAfterPromote(s[1..]);
    }
  }

  /** Clearing leaves no Selected seat and adds the Selected seats to the Available ones. */
  lemma {:induction false} CountAfterClear(s: seq<Seat>)
    ensures Count(RewriteRow(s, Clear), Selected) == 0
    ensures Count(RewriteRow(s, Clear), Available) == Count(s, Available) + Count(s, Selected)
    ensures Count(RewriteRow(s, Clear), Booked) == Count(s, Booked)
    decreases |s|
  {
    if |s| > 0 {
      assert RewriteRow(s, Clear)[1..] == RewriteRow(s[1..], Clear);
      CountAfterClear(s[1..]);
    }
  }

  // ---------------------------------------------------------------------
  // Prices
  // ---------------------------------------------------------------------

  const PREMIUM := 1000
  const STANDARD := 750
  const ECONOMY := 500

  /** The unit price of a seat in the given row: rows up to 2 are premium,
      rows 3 to 5 standard, every later row economy. */
  function SeatPrice(rowIndex: int): (p: nat)
    ensures p == PREMIUM || p == STANDARD || p == ECONOMY
    ensures p == PREMIUM <==> rowIndex <= 2
    ensures p == ECONOMY <==> rowIndex > 5
  {
    if rowIndex <= 2 then PREMIUM
    else if rowIndex <= 5 then STANDARD
    else ECONOMY
  }

  /** A seat further back never costs more. */
  lemma SeatPriceNonIncreasing(r1: int, r2: int)
    requires r1 <= r2
    ensures SeatPrice(r2) <= SeatPrice(r1)
  {
  }

  /** The total shown on screen: row by row, the row's Selected seats times the row's price. */
  function TotalPrice(g: Grid): int
  {
    if |g| == 0 then 0
    else TotalPrice(g[..|g| - 1]) + Count(g[|g| - 1], Selected) * SeatPrice(|g| - 1)
  }

  /** The amount quoted when booking: each listed seat at the price of its own row. */
  function QuotePrice(s: seq<Seat>): int
  {
    if |s| == 0 then 0 else SeatPrice(s[0].row) + QuotePrice(s[1..])
  }

  lemma {:induction false} QuotePriceConcat(a: seq<Seat>, b: seq<Seat>)
    ensures QuotePrice(a + b) == QuotePrice(a) + QuotePrice(b)
    decreases |a|
  {
    if |a| > 0 {
      assert (a + b)[1..] == a[1..] + b;
      QuotePriceConcat(a[1..], b);
    } else {
      assert a + b == b;
    }
  }

  lemma {:induction false} QuotePriceOneRow(s: seq<Seat>, r: int)
    requires forall i :: 0 <= i < |s| ==> s[i].row == r
    ensures QuotePrice(s) == |s| * SeatPrice(r)
    decreases |s|
  {
    if |s| > 0 {
      QuotePriceOneRow(s[1..], r);
      assert QuotePrice(s) == SeatPrice(r) + (|s| - 1) * SeatPrice(r);
    }
  }

  /** Each quoted seat costs between the economy and the premium price. */
  lemma {:induction false} QuotePriceBounds(s: seq<Seat>)
    ensures ECONOMY * |s| <= QuotePrice(s) <= PREMIUM * |s|
    decreases |s|
  {
    if |s| > 0 {
      QuotePriceBounds(s[1..]);
    }
  }

  /** The on-screen total of a labelled grid equals the booking quote over its Selected seats. */
  lemma {:induction false} TotalPriceIsQuote(g: Grid)
    requires Labelled(g)
    ensures TotalPrice(g) == QuotePrice(SeatsWith(g, Selected))
    decreases |g|
  {
    if |g| > 0 {
      var n := |g| - 1;
      assert Labelled(g[..n]);
      TotalPriceIsQuote(g[..n]);
      FilterConcat(Flatten(g[..n]), g[n], Selected);
      QuotePriceConcat(Filter(Flatten(g[..n]), Selected), Filter(g[n], Selected));
      var f := Filter(g[n], Selected);
      forall i | 0 <= i < |f| ensures f[i].row == n {
        assert f[i] in g[n];
      }
      QuotePriceOneRow(f, n);
    }
  }
}
