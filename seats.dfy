/**
 * The seat-selection screen: a fixed grid of seats named by row letter and column
 * number, and the list of selected seats that a click on a seat toggles, with a cap
 * of three seats. The list keeps click order and is handed to payment in that order.
 */
module Seats {
  import opened Wrappers
  import opened Text

  const Rows := 5
  const Columns := 6
  const MaxSeats := 3

  /** The movie and showtime the screen is opened for. */
  datatype Showing = Showing(movieTitle: string, showTime: string)

  /** What "Book Tickets" passes on to the payment screen. */
  datatype PaymentRequest = PaymentRequest(movieTitle: string, showTime: string, seats: seq<string>)

  /** The result of one click on a seat: the new selection, and whether the capacity notice is raised. */
  datatype Outcome = Outcome(seats: seq<string>, capacityNotice: bool)

  /** The screen's arguments: a missing title or showtime falls back to a placeholder. */
  function ShowingFromExtras(movieTitle: Option<string>, showTime: Option<string>): (r: Showing)
    ensures r.movieTitle == (if movieTitle.Some? then movieTitle.value else "Movie")
    ensures r.showTime == (if showTime.Some? then showTime.value else "Showtime")
  {
    Showing(movieTitle.GetOr("Movie"), showTime.GetOr("Showtime"))
  }

  /** The row letter: 'A' for row 1, 'B' for row 2, and so on. */
  function RowLetter(row: nat): (c: char)
    requires 1 <= row <= 26
    ensures 'A' <= c <= 'Z'
    ensures c as int - 'A' as int == row - 1
  {
    ('A' as int + row - 1) as char
  }

  /** The id of the seat in row `row` and column `col`: the row letter, then the column in decimal. */
  function SeatId(row: nat, col: nat): (id: string)
    requires 1 <= row <= 26
    ensures |id| >= 2 && id[0] == RowLetter(row) && id[1..] == Decimal(col)
  {
    [RowLetter(row)] + Decimal(col)
  }

  /** Different seats have different ids. */
  lemma SeatIdInjective(r1: nat, c1: nat, r2: nat, c2: nat)
    requires 1 <= r1 <= 26 && 1 <= r2 <= 26
    requires SeatId(r1, c1) == SeatId(r2, c2)
    ensures r1 == r2 && c1 == c2
  {
    assert RowLetter(r1) == SeatId(r1, c1)[0] == SeatId(r2, c2)[0] == RowLetter(r2);
    DecimalInjective(c1, c2);
  }

  /** Row-major position of a seat within the grid; rows and columns count from 1. */
  function GridIndex(row: nat, col: nat): (k: nat)
    requires 1 <= row <= Rows && 1 <= col <= Columns
    ensures k < Rows * Columns
  {
    (row - 1) * Columns + (col - 1)
  }

  /** The seat grid, row by row, left to right. */
  function Grid(): (g: seq<string>)
    ensures |g| == Rows * Columns
  {
    seq(Rows * Columns, k requires 0 <= k < Rows * Columns => SeatId(k / Columns + 1, k % Columns + 1))
  }

  lemma GridAt(row: nat, col: nat)
    requires 1 <= row <= Rows && 1 <= col <= Columns
    ensures Grid()[GridIndex(row, col)] == SeatId(row, col)
  {
    var k := GridIndex(row, col);
    assert k / Columns + 1 == row && k % Columns + 1 == col;
  }

  /** The grid holds thirty distinct ids. */
  lemma GridDistinct()
    ensures |Grid()| == 30
    ensures forall a, b :: 0 <= a < b < |Grid()| ==> Grid()[a] != Grid()[b]
  {
    var g := Grid();
    forall a, b | 0 <= a < b < |g| ensures g[a] != g[b] {
      if g[a] == g[b] {
        SeatIdInjective(a / Columns + 1, a % Columns + 1, b / Columns + 1, b % Columns + 1);
      }
    }
  }

  /** The grid starts at "A1" and ends at "E6". */
  lemma GridEnds()
    ensures Grid()[0] == "A1" && Grid()[|Grid()| - 1] == "E6"
  {
  }

  /** The nested loops that lay out the seat grid, one row at a time. */
  method BuildGrid() returns (grid: seq<string>)
    ensures |grid| == Rows * Columns
    ensures forall row, col :: 1 <= row <= Rows && 1 <= col <= Columns ==>
              grid[GridIndex(row, col)] == SeatId(row, col)
    ensures grid == Grid()
  {
    grid := [];
    var i := 1;
    while i <= Rows
      invariant 1 <= i <= Rows + 1
      invariant |grid| == (i - 1) * Columns
      invariant forall k :: 0 <= k < |grid| ==> grid[k] == Grid()[k]
    {
      var j := 1;
      while j <= Columns
        invariant 1 <= j <= Columns + 1
        invariant |grid| == (i - 1) * Columns + (j - 1)
        invariant forall k :: 0 <= k < |grid| ==> grid[k] == Grid()[k]
      {
        GridAt(i, j);
        grid := grid + [SeatId(i, j)];
        j := j + 1;
      }
      i := i + 1;
    }
    forall row, col | 1 <= row <= Rows && 1 <= col <= Columns
      ensures grid[GridIndex(row, col)] == SeatId(row, col)
    {
      GridAt(row, col);
    }
  }

  predicate NoDuplicates(s: seq<string>) {
    forall a, b :: 0 <= a < b < |s| ==> s[a] != s[b]
  }

  /** What every reachable selection satisfies: at most three seats, none twice. */
  predicate SelectionInvariant(s: seq<string>) {
    |s| <= MaxSeats && NoDuplicates(s)
  }

  /** The position of the first occurrence of `x` in `s`. */
  function IndexOf(s: seq<string>, x: string): (i: nat)
    requires x in s
    ensures i < |s| && s[i] == x
    ensures forall k :: 0 <= k < i ==> s[k] != x
  {
    if s[0] == x then 0 else 1 + IndexOf(s[1..], x)
  }

  /** `MutableList.remove`: drop the first occurrence of `x`, keeping the others in order. */
  function RemoveFirst(s: seq<string>, x: string): (r: seq<string>)
    ensures x in s ==> r == s[..IndexOf(s, x)] + s[IndexOf(s, x) + 1..]
    ensures x !in s ==> r == s
  {
    if s == [] then []
    else if s[0] == x then s[1..]
    else
      var rest := RemoveFirst(s[1..], x);
      assert x in s ==> x in s[1..] && IndexOf(s, x) == 1 + IndexOf(s[1..], x);
      assert x in s ==> var j := IndexOf(s[1..], x);
        s[..j + 1] == [s[0]] + s[1..][..j] && s[j + 2..] == s[1..][j + 1..];
      [s[0]] + rest
  }

  /** One click on seat `id`: deselect it if selected, else select it if there is room, else refuse with the notice. */
  function ToggleSeat(s: seq<string>, id: string): (t: Outcome)
    ensures t.capacityNotice <==> id !in s && |s| >= MaxSeats
    ensures t.capacityNotice ==> t.seats == s
    ensures id !in s && |s| < MaxSeats ==> t.seats == s + [id]
    ensures id in s ==> t.seats == s[..IndexOf(s, id)] + s[IndexOf(s, id) + 1..]
  {
    if id in s then Outcome(RemoveFirst(s, id), false)
    else if |s| < MaxSeats then Outcome(s + [id], false)
    else Outcome(s, true)
  }

  /** Deselecting a seat removes that seat and no other. */
  lemma DeselectRemovesOnlyThatSeat(s: seq<string>, id: string)
    requires SelectionInvariant(s) && id in s
    ensures id !in ToggleSeat(s, id).seats
    ensures |ToggleSeat(s, id).seats| == |s| - 1
    ensures multiset(ToggleSeat(s, id).seats) == multiset(s) - multiset{id}
  {
    var i := IndexOf(s, id);
    var r := ToggleSeat(s, id).seats;
    var front, back := s[..i], s[i + 1..];
    assert r == front + back;
    assert s == front + [id] + back;
    assert multiset(s) == multiset(front) + multiset{id} + multiset(back);
  }

  /** Deselecting a seat keeps the remaining seats in the order they were clicked. */
  lemma DeselectKeepsOrder(s: seq<string>, id: string)
    requires SelectionInvariant(s) && id in s
    ensures forall a, b :: 0 <= a < b < |ToggleSeat(s, id).seats| ==>
              ToggleSeat(s, id).seats[a] in s && ToggleSeat(s, id).seats[b] in s &&
              IndexOf(s, ToggleSeat(s, id).seats[a]) < IndexOf(s, ToggleSeat(s, id).seats[b])
  {
    var i := IndexOf(s, id);
    var r := ToggleSeat(s, id).seats;
    forall a | 0 <= a < |r|
      ensures r[a] in s && IndexOf(s, r[a]) == if a < i then a else a + 1
    {
      RemovedAt(s, i, a);
    }
  }

  /** After removing position `i`, the seat at position `a` came from position `a` or `a + 1`, and nowhere else. */
  lemma RemovedAt(s: seq<string>, i: nat, a: nat)
    requires NoDuplicates(s) && i < |s| && a < |s| - 1
    ensures var k := if a < i then a else a + 1;
            (s[..i] + s[i + 1..])[a] == s[k] && s[k] in s && IndexOf(s, s[k]) == k
  {
    var k := if a < i then a else a + 1;
    NoDuplicatesIndexOf(s, k);
  }

  lemma NoDuplicatesIndexOf(s: seq<string>, k: nat)
    requires NoDuplicates(s) && k < |s|
    ensures IndexOf(s, s[k]) == k
  {
  }

  /** A click keeps the selection within the cap and free of duplicates. */
  lemma ToggleKeepsInvariant(s: seq<string>, id: string)
    requires SelectionInvariant(s)
    ensures SelectionInvariant(ToggleSeat(s, id).seats)
  {
    if id in s {
      var i := IndexOf(s, id);
      var r := ToggleSeat(s, id).seats;
      forall a, b | 0 <= a < b < |r| ensures r[a] != r[b] {
        var a' := if a < i then a else a + 1;
        var b' := if b < i then b else b + 1;
        assert s[a'] == r[a] && s[b'] == r[b];
      }
    }
  }

  /** The selection after clicking the seats `ids` in order, starting from `s`. */
  function ToggleAll(s: seq<string>, ids: seq<string>): seq<string>
    decreases |ids|
  {
    if ids == [] then s else ToggleAll(ToggleSeat(s, ids[0]).seats, ids[1..])
  }

  /** Any sequence of clicks keeps the invariant. */
  lemma {:induction false} ToggleAllKeepsInvariant(s: seq<string>, ids: seq<string>)
    requires SelectionInvariant(s)
    ensures SelectionInvariant(ToggleAll(s, ids))
    decreases |ids|
  {
    if ids != [] {
      ToggleKeepsInvariant(s, ids[0]);
      ToggleAllKeepsInvariant(ToggleSeat(s, ids[0]).seats, ids[1..]);
    }
  }

  /** Every selection reachable from the empty one holds at most three seats, none twice. */
  lemma ReachableSelections(ids: seq<string>)
    ensures |ToggleAll([], ids)| <= MaxSeats
    ensures NoDuplicates(ToggleAll([], ids))
  {
    ToggleAllKeepsInvariant([], ids);
  }

  lemma {:induction false} RemoveFirstAppended(s: seq<string>, id: string)
    requires id !in s
    ensures RemoveFirst(s + [id], id) == s
  {
    if s != [] {
      assert (s + [id])[1..] == s[1..] + [id];
      RemoveFirstAppended(s[1..], id);
    }
  }

  /** Selecting a seat and clicking it again gives back exactly the previous selection. */
  lemma SelectThenDeselect(s: seq<string>, id: string)
    requires id !in s && |s| < MaxSeats
    ensures !ToggleSeat(s, id).capacityNotice
    ensures ToggleSeat(ToggleSeat(s, id).seats, id) == Outcome(s, false)
  {
    RemoveFirstAppended(s, id);
  }

  /**
   * Deselecting a seat and clicking it again selects it once more, but at the end:
   * the same seats, with that one moved last.
   */
  lemma DeselectThenReselect(s: seq<string>, id: string)
    requires SelectionInvariant(s) && id in s
    ensures var t := ToggleSeat(ToggleSeat(s, id).seats, id);
            !t.capacityNotice &&
            t.seats == RemoveFirst(s, id) + [id] &&
            multiset(t.seats) == multiset(s) &&
            t.seats[|t.seats| - 1] == id
  {
    DeselectRemovesOnlyThatSeat(s, id);
    var r := ToggleSeat(s, id).seats;
    calc {
      multiset(r + [id]);
      multiset(r) + multiset{id};
      multiset(s);
    }
  }

  /** A refused click followed by the same click is refused again: both leave the selection alone. */
  lemma RefusedTwice(s: seq<string>, id: string)
    requires id !in s && |s| >= MaxSeats
    ensures ToggleSeat(s, id) == Outcome(s, true)
    ensures ToggleSeat(ToggleSeat(s, id).seats, id) == Outcome(s, true)
  {
  }

  /** Selecting A1, B2, C3 and then trying D4: the fourth click is refused and the total stays at three seats. */
  lemma ThreeSeatScenario()
    ensures ToggleAll([], ["A1", "B2", "C3"]) == ["A1", "B2", "C3"]
    ensures ToggleSeat(["A1", "B2", "C3"], "D4") == Outcome(["A1", "B2", "C3"], true)
  {
    assert "B2" !in ["A1"];
    assert "C3" !in ["A1", "B2"];
    assert "D4" !in ["A1", "B2", "C3"];
    calc {
      ToggleAll([], ["A1", "B2", "C3"]);
      ToggleAll(["A1"], ["B2", "C3"]);
      ToggleAll(["A1", "B2"], ["C3"]);
      ToggleAll(["A1", "B2", "C3"], []);
    }
  }

  /** The selected seats, changed in place by clicks. */
  class SeatSelection {
    var seats: seq<string>

    ghost predicate Valid()
      reads this
    {
      SelectionInvariant(seats)
    }

    /** The screen opens with nothing selected. */
    constructor ()
      ensures Valid() && seats == []
    {
      seats := [];
    }

    /** `isSelected`: whether a seat is drawn as selected. */
    predicate IsSelected(id: string)
      reads this
    {
      id in seats
    }

    /** The click handler of a seat. */
    method Toggle(id: string) returns (capacityNotice: bool)
      requires Valid()
      modifies this
      ensures Valid()
      ensures Outcome(seats, capacityNotice) == ToggleSeat(old(seats), id)
      ensures capacityNotice ==> seats == old(seats)
      ensures old(IsSelected(id)) ==> !IsSelected(id) && !capacityNotice
      ensures !old(IsSelected(id)) && !capacityNotice ==> seats == old(seats) + [id]
    {
      ToggleKeepsInvariant(seats, id);
      if id in seats {
        seats := RemoveFirst(seats, id);
        capacityNotice := false;
      } else if |seats| < MaxSeats {
        seats := seats + [id];
        capacityNotice := false;
      } else {
        capacityNotice := true;
      }
    }

    /**
     * "Book Tickets" is shown only while some seat is selected; it passes the showing
     * and the seats, in click order, to payment.
     */
    function BookTickets(showing: Showing): (r: Option<PaymentRequest>)
      reads this
      ensures r.Some? <==> |seats| > 0
      ensures r.Some? ==> r.value.movieTitle == showing.movieTitle &&
                          r.value.showTime == showing.showTime &&
                          r.value.seats == seats
    {
      if seats != [] then Some(PaymentRequest(showing.movieTitle, showing.showTime, seats)) else None
    }
  }
}
