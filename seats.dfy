/** Seat maps: the fixed 6 x 24 layout every showtime starts with, the list of
    free seats, and the seat-level half of the conditional updates that reserve
    and release seats. */
module Seats {

  type SeatNumber = string

  datatype Seat = Seat(seatNumber: SeatNumber, isAvailable: bool)

  /** The row letters, iterated in this order. */
  const Rows: string := "ABCDEF"

  const SeatsPerRow: nat := 24

  function Digit(d: nat): char
    requires d < 10
  {
    ('0' as int + d) as char
  }

  /** The decimal spelling of a seat's number within its row. */
  function Numeral(n: nat): string
    requires 1 <= n <= SeatsPerRow
  {
    if n < 10 then [Digit(n)] else [Digit(n / 10), Digit(n % 10)]
  }

  /** The label of seat `n` (counted from 1) of row `row` (counted from 0):
      the row letter followed by the number, as the template literal prints it. */
  function Label(row: nat, n: nat): SeatNumber
    requires row < |Rows| && 1 <= n <= SeatsPerRow
  {
    [Rows[row]] + Numeral(n)
  }

  /** The seat at position `i` of a generated map: row-major order, all free. */
  function LayoutSeat(i: nat): Seat
    requires i < |Rows| * SeatsPerRow
  {
    Seat(Label(i / SeatsPerRow, i % SeatsPerRow + 1), true)
  }

  /** The seat map every new showtime receives. */
  function Layout(): seq<Seat>
  {
    seq(|Rows| * SeatsPerRow, i requires 0 <= i < |Rows| * SeatsPerRow => LayoutSeat(i))
  }

  /** No two seats of the map share a number. */
  predicate DistinctNumbers(seats: seq<Seat>)
  {
    forall i, j :: 0 <= i < j < |seats| ==> seats[i].seatNumber != seats[j].seatNumber
  }

  lemma LabelInjective(r1: nat, n1: nat, r2: nat, n2: nat)
    requires r1 < |Rows| && 1 <= n1 <= SeatsPerRow
    requires r2 < |Rows| && 1 <= n2 <= SeatsPerRow
    requires Label(r1, n1) == Label(r2, n2)
    ensures r1 == r2 && n1 == n2
  {
    assert Rows[r1] == Label(r1, n1)[0] == Label(r2, n2)[0] == Rows[r2];
    assert Numeral(n1) == Label(r1, n1)[1..] == Label(r2, n2)[1..] == Numeral(n2);
  }

  /** All labels of the generated map are pairwise distinct. */
  lemma LayoutDistinct()
    ensures DistinctNumbers(Layout())
  {
    var layout := Layout();
    forall i, j | 0 <= i < j < |layout|
      ensures layout[i].seatNumber != layout[j].seatNumber
    {
      if layout[i].seatNumber == layout[j].seatNumber {
        LabelInjective(i / SeatsPerRow, i % SeatsPerRow + 1, j / SeatsPerRow, j % SeatsPerRow + 1);
      }
    }
  }

  /** Builds the default seat map with two nested loops, rows A to F and
      numbers 1 to 24, pushing one free seat per step. */
  method GenerateSeats() returns (seats: seq<Seat>)
    ensures |seats| == |Rows| * SeatsPerRow == 144
    ensures forall i :: 0 <= i < |seats| ==> seats[i].isAvailable
    ensures forall i :: 0 <= i < |seats| ==>
      seats[i].seatNumber == Label(i / SeatsPerRow, i % SeatsPerRow + 1)
    ensures DistinctNumbers(seats)
    ensures seats == Layout()
  {
    seats := [];
    for r := 0 to |Rows|
      invariant seats == Layout()[..r * SeatsPerRow]
    {
      var row := Rows[r];
      for n := 1 to SeatsPerRow + 1
        invariant seats == Layout()[..r * SeatsPerRow + n - 1]
      {
        var k := r * SeatsPerRow + n - 1;
        assert k / SeatsPerRow == r && k % SeatsPerRow == n - 1;
        assert Layout()[..k + 1] == Layout()[..k] + [LayoutSeat(k)];
        seats := seats + [Seat([row] + Numeral(n), true)];
      }
    }
    LayoutDistinct();
  }

  /** The free seats, in seat-map order. */
  function Available(seats: seq<Seat>): (free: seq<Seat>)
    ensures |free| <= |seats|
    ensures forall s :: s in free <==> s in seats && s.isAvailable
  {
    if seats == [] then []
    else (if seats[0].isAvailable then [seats[0]] else []) + Available(seats[1..])
  }

  /** The filter keeps the order: it distributes over concatenation. */
  lemma {:induction false} AvailableConcat(a: seq<Seat>, b: seq<Seat>)
    ensures Available(a + b) == Available(a) + Available(b)
  {
    if a == [] {
      assert a + b == b;
    } else {
      assert (a + b)[1..] == a[1..] + b;
      AvailableConcat(a[1..], b);
    }
  }

  /** A map whose seats are all free lists every seat. */
  lemma {:induction false} AvailableAllFree(seats: seq<Seat>)
    requires forall i :: 0 <= i < |seats| ==> seats[i].isAvailable
    ensures Available(seats) == seats
  {
    if seats != [] {
      AvailableAllFree(seats[1..]);
    }
  }

  /** A new showtime lists every seat of its map as free. */
  lemma NewMapAllFree()
    ensures Available(Layout()) == Layout()
  {
    AvailableAllFree(Layout());
  }

  /** Sets `isAvailable` to `flag` on every seat whose number is in `numbers`
      (the `$in` array filter of the update) and leaves the others alone. */
  function SetFlags(seats: seq<Seat>, numbers: seq<SeatNumber>, flag: bool): (r: seq<Seat>)
    ensures |r| == |seats|
    ensures forall i :: 0 <= i < |r| ==> r[i].seatNumber == seats[i].seatNumber
    ensures forall i :: 0 <= i < |r| && seats[i].seatNumber in numbers ==> r[i].isAvailable == flag
    ensures forall i :: 0 <= i < |r| && seats[i].seatNumber !in numbers ==> r[i] == seats[i]
  {
    if seats == [] then []
    else
      var head := if seats[0].seatNumber in numbers then seats[0].(isAvailable := flag) else seats[0];
      [head] + SetFlags(seats[1..], numbers, flag)
  }

  /** Some seat carries number `n` with availability `flag` (one `$elemMatch`). */
  predicate HasSeat(seats: seq<Seat>, n: SeatNumber, flag: bool)
  {
    exists i :: 0 <= i < |seats| && seats[i].seatNumber == n && seats[i].isAvailable == flag
  }

  /** The `$all` condition: every requested number has such a seat. As with
      MongoDB's `$all`, an empty list of numbers matches nothing. */
  predicate HoldsAll(seats: seq<Seat>, numbers: seq<SeatNumber>, flag: bool)
  {
    |numbers| > 0 && forall n :: n in numbers ==> HasSeat(seats, n, flag)
  }

  /** The seats whose numbers are not in `numbers`, in order. */
  function Drop(seats: seq<Seat>, numbers: seq<SeatNumber>): (r: seq<Seat>)
    ensures forall s :: s in r <==> s in seats && s.seatNumber !in numbers
  {
    if seats == [] then []
    else (if seats[0].seatNumber in numbers then [] else [seats[0]]) + Drop(seats[1..], numbers)
  }

  /** After the reserving flip, the free list is the old free list without
      the requested numbers, in the same order. */
  lemma {:induction false} AvailableAfterTaking(seats: seq<Seat>, numbers: seq<SeatNumber>)
    ensures Available(SetFlags(seats, numbers, false)) == Drop(Available(seats), numbers)
  {
    if seats != [] {
      var x, tail := seats[0], seats[1..];
      var flipped := SetFlags(seats, numbers, false);
      var y := flipped[0];
      assert flipped == [y] + SetFlags(tail, numbers, false);
      AvailableAfterTaking(tail, numbers);
      var before := Drop(Available(tail), numbers);
      assert Available(flipped) == (if y.isAvailable then [y] else []) + before;
      if x.isAvailable {
        var free := [x] + Available(tail);
        assert Available(seats) == free;
        assert free[0] == x && free[1..] == Available(tail);
        assert Drop(free, numbers) == (if x.seatNumber in numbers then [] else [x]) + before;
      } else {
        assert Available(seats) == Available(tail);
      }
    }
  }

  /** In a map without duplicate numbers, a seat whose number is held free by
      `HoldsAll` is itself free. */
  lemma HeldSeatsAreFree(seats: seq<Seat>, numbers: seq<SeatNumber>, flag: bool)
    requires DistinctNumbers(seats)
    requires HoldsAll(seats, numbers, flag)
    ensures forall i :: 0 <= i < |seats| && seats[i].seatNumber in numbers ==> seats[i].isAvailable == flag
  {
    forall i | 0 <= i < |seats| && seats[i].seatNumber in numbers
      ensures seats[i].isAvailable == flag
    {
      var n := seats[i].seatNumber;
      assert HasSeat(seats, n, flag);
      var j :| 0 <= j < |seats| && seats[j].seatNumber == n && seats[j].isAvailable == flag;
      assert i == j;
    }
  }

  /** Flipping the held seats and flipping them back restores the map. */
  lemma SetFlagsUndo(seats: seq<Seat>, numbers: seq<SeatNumber>, flag: bool)
    requires DistinctNumbers(seats)
    requires HoldsAll(seats, numbers, flag)
    ensures SetFlags(SetFlags(seats, numbers, !flag), numbers, flag) == seats
  {
    HeldSeatsAreFree(seats, numbers, flag);
    var back := SetFlags(SetFlags(seats, numbers, !flag), numbers, flag);
    assert |back| == |seats|;
    forall i | 0 <= i < |seats| ensures back[i] == seats[i] {
    }
  }
}
