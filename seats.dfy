/** The seat grid of the booking screen: the three seat statuses, a seat
    record, the fixed 8 x 10 layout, and the seat identifiers "<row>-<seat>". */
module Seats {

  const ROWS := 8
  const SEATS_PER_ROW := 10
  const MAX_SEATS_PER_BOOKING := 8

  datatype Status = Available | Selected | Booked

  /** One seat: its identifier, its zero-based row and column, and its status. */
  datatype Seat = Seat(id: string, row: nat, seat: nat, status: Status)

  /** Rows in display order, each row's seats in column order. */
  type Grid = seq<seq<Seat>>

  // ---------------------------------------------------------------------
  // Seat identifiers: the decimal text of the row, a dash, the decimal text
  // of the column, as produced by a template literal over two integers.
  // ---------------------------------------------------------------------

  /** The character of the decimal digit d. */
  function Digit(d: nat): (ch: char)
    requires d < 10
    ensures ch as int == '0' as int + d
    ensures '0' <= ch <= '9'
  {
    ('0' as int + d) as char
  }

  /** The number a digit character stands for. */
  function DigitValue(ch: char): int
  {
    ch as int - '0' as int
  }

  /** The number a string of decimal digits denotes, most significant digit first. */
  function DecimalValue(s: string): int
    decreases |s|
  {
    if |s| == 0 then 0 else 10 * DecimalValue(s[..|s| - 1]) + DigitValue(s[|s| - 1])
  }

  /** The decimal representation of n, without leading zeros. */
  function NatToString(n: nat): (s: string)
    ensures |s| >= 1
    ensures |s| == 1 <==> n < 10
    ensures forall i :: 0 <= i < |s| ==> '0' <= s[i] <= '9'
    ensures |s| > 1 ==> s[0] != '0'
    decreases n
  {
    if n < 10 then [Digit(n)] else NatToString(n / 10) + [Digit(n % 10)]
  }

  /** Reading the decimal text of n back gives n. */
  lemma {:induction false} NatToStringValue(n: nat)
    ensures DecimalValue(NatToString(n)) == n
    decreases n
  {
    var s := NatToString(n);
    if n < 10 {
      assert s[..0] == [];
    } else {
      assert s[..|s| - 1] == NatToString(n / 10);
      NatToStringValue(n / 10);
    }
  }

  lemma {:induction false} NatToStringInjective(a: nat, b: nat)
    requires NatToString(a) == NatToString(b)
    ensures a == b
    decreases a
  {
    var s := NatToString(a);
    if a >= 10 && b >= 10 {
      assert NatToString(a / 10) == s[..|s| - 1] == NatToString(b / 10);
      NatToStringInjective(a / 10, b / 10);
      assert Digit(a % 10) == s[|s| - 1] == Digit(b % 10);
    } else {
      assert a < 10 && b < 10;
      assert Digit(a) == s[0] == Digit(b);
    }
  }

  function SeatId(row: nat, seat: nat): string
  {
    NatToString(row) + "-" + NatToString(seat)
  }

  /** The index of the first dash in s, or |s| if there is none. */
  function FirstDash(s: string): (k: nat)
    ensures k <= |s|
    ensures k < |s| ==> s[k] == '-'
    ensures forall i :: 0 <= i < k ==> s[i] != '-'
  {
    if |s| == 0 || s[0] == '-' then 0 else 1 + FirstDash(s[1..])
  }

  lemma {:induction false} FirstDashAfterDigits(d: string, t: string)
    requires forall i :: 0 <= i < |d| ==> '0' <= d[i] <= '9'
    ensures FirstDash(d + "-" + t) == |d|
    decreases |d|
  {
    if |d| > 0 {
      assert (d + "-" + t)[1..] == d[1..] + "-" + t;
      FirstDashAfterDigits(d[1..], t);
    } else {
      assert (d + "-" + t)[0] == '-';
    }
  }

  /** Distinct positions have distinct identifiers. */
  lemma SeatIdInjective(r1: nat, c1: nat, r2: nat, c2: nat)
    requires SeatId(r1, c1) == SeatId(r2, c2)
    ensures r1 == r2 && c1 == c2
  {
    var a1, a2 := NatToString(r1), NatToString(r2);
    var b1, b2 := NatToString(c1), NatToString(c2);
    var id := SeatId(r1, c1);
    FirstDashAfterDigits(a1, b1);
    FirstDashAfterDigits(a2, b2);
    assert |a1| == |a2|;
    assert a1 == id[..|a1|] == a2;
    NatToStringInjective(r1, r2);
    assert b1 == id[|a1| + 1..] == b2;
    NatToStringInjective(c1, c2);
  }

  /** An identifier reads back as its row and column: the text before the
      first dash denotes the row, the text after it the column. */
  lemma SeatIdReadsBack(row: nat, seat: nat)
    ensures var id := SeatId(row, seat);
            var k := FirstDash(id);
            k < |id| && DecimalValue(id[..k]) == row && DecimalValue(id[k + 1..]) == seat
  {
    var a, b := NatToString(row), NatToString(seat);
    var id := SeatId(row, seat);
    FirstDashAfterDigits(a, b);
    assert id[..|a|] == a && id[|a| + 1..] == b;
    NatToStringValue(row);
    NatToStringValue(seat);
  }

  /** On the 8 x 10 grid every identifier is a digit, a dash and a digit. */
  lemma SeatIdOfSmall(row: nat, seat: nat)
    requires row < 10 && seat < 10
    ensures SeatId(row, seat) == [Digit(row), '-', Digit(seat)]
    ensures SeatId(row, seat)[0] as int - '0' as int == row
    ensures SeatId(row, seat)[2] as int - '0' as int == seat
  {
  }

  // ---------------------------------------------------------------------
  // Well-formed grids
  // ---------------------------------------------------------------------

  /** Every row holds SEATS_PER_ROW seats. */
  predicate RowsOfWidth(g: Grid)
  {
    forall r :: 0 <= r < |g| ==> |g[r]| == SEATS_PER_ROW
  }

  /** Seat [r][c] knows its own row r, column c and identifier "r-c". */
  predicate Labelled(g: Grid)
  {
    forall r, c :: 0 <= r < |g| && 0 <= c < |g[r]| ==>
      g[r][c].row == r && g[r][c].seat == c && g[r][c].id == SeatId(r, c)
  }

  /** The shape every reachable grid has: 8 rows of 10 labelled seats. */
  predicate WellFormed(g: Grid)
  {
    |g| == ROWS && RowsOfWidth(g) && Labelled(g)
  }

  predicate OnGrid(g: Grid, r: int, c: int)
  {
    0 <= r < |g| && 0 <= c < |g[r]|
  }

  /** In a labelled grid two seats share an identifier only if they are the same seat. */
  lemma IdsDistinct(g: Grid, r1: int, c1: int, r2: int, c2: int)
    requires Labelled(g) && OnGrid(g, r1, c1) && OnGrid(g, r2, c2)
    ensures g[r1][c1].id == g[r2][c2].id <==> r1 == r2 && c1 == c2
  {
    if g[r1][c1].id == g[r2][c2].id {
      SeatIdInjective(r1, c1, r2, c2);
    }
  }

  /** The grid the screen starts from and returns to on reset. */
  function InitialGrid(): (g: Grid)
    ensures WellFormed(g)
    ensures forall r, c :: OnGrid(g, r, c) ==> g[r][c].status == Available
  {
    seq(ROWS, r requires 0 <= r =>
      seq(SEATS_PER_ROW, c requires 0 <= c => Seat(SeatId(r, c), r, c, Available)))
  }

  /** Builds the grid row by row and seat by seat, as the component does on start and on reset. */
  method InitializeSeats() returns (seats: Grid)
    ensures seats == InitialGrid()
  {
    seats := [];
    var row := 0;
    while row < ROWS
      invariant 0 <= row <= ROWS
      invariant seats == InitialGrid()[..row]
    {
      var rowSeats := [];
      var seat := 0;
      while seat < SEATS_PER_ROW
        invariant 0 <= seat <= SEATS_PER_ROW
        invariant rowSeats == InitialGrid()[row][..seat]
      {
        rowSeats := rowSeats + [Seat(SeatId(row, seat), row, seat, Available)];
        seat := seat + 1;
      }
      assert rowSeats == InitialGrid()[row];
      assert InitialGrid()[..row + 1] == InitialGrid()[..row] + [InitialGrid()[row]];
      seats := seats + [rowSeats];
      row := row + 1;
    }
  }
}
