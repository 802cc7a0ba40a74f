/** The values of the seat booking engine: what a grid cell holds, what the
    ledger stores per booking, the fixed cabin layout, the format of booking
    references, and the structured results that stand in for the coloured
    messages of the operations. */
module Cabin {

  const Rows: int := 7
  const Columns: int := 4
  const ReferenceLength: int := 8

  /** One grid cell: 'F', 'X', 'S' or a booking reference. */
  datatype Cell = Free | Aisle | Storage | Booked(reference: string)

  /** One ledger entry, keyed by its reference. */
  datatype Booking = Booking(
    passportNumber: string,
    firstName: string,
    lastName: string,
    seatRow: int,
    seatColumn: int)

  /** Result of an availability query. */
  datatype Availability =
    | Invalid
    | Available
    | Taken(reference: string, passportNumber: string, firstName: string, lastName: string)

  /** Result of a booking attempt. */
  datatype BookOutcome = Success(reference: string) | SeatUnavailable

  /** Result of a release attempt. */
  datatype FreeOutcome = Freed | AlreadyFreeOrInvalid | BookingNotFound

  predicate InBounds(row: int, column: int) {
    0 <= row < Rows && 0 <= column < Columns
  }

  /** The cabin as it is built: row 3 is aisle, the last two columns of rows
      5 and 6 are storage, every other cell is free. */
  function Layout(row: int, column: int): (cell: Cell)
    ensures !cell.Booked?
  {
    if row == 3 then Aisle
    else if (row == 5 || row == 6) && 2 <= column < 4 then Storage
    else Free
  }

  /** A cell agrees with the layout: blocked cells keep their marking, every
      other cell is free or booked. */
  predicate Conforms(cell: Cell, layout: Cell) {
    if layout == Free then cell.Free? || cell.Booked? else cell == layout
  }

  /** Validity of a raw cell value: only the two blocked markings are invalid,
      so the valid values are those a seat can hold. */
  predicate IsSeatValueValid(cell: Cell)
    ensures IsSeatValueValid(cell) <==> cell.Free? || cell.Booked?
  {
    cell != Aisle && cell != Storage
  }

  /** The letter the booking-state display shows for a cell. */
  function DisplayCode(cell: Cell): (code: char)
    ensures code == 'R' <==> IsSeatValueValid(cell) && cell != Free
    ensures code == 'F' <==> cell == Free
    ensures code == 'X' <==> cell == Aisle
    ensures code == 'S' <==> cell == Storage
  {
    match cell
    case Free => 'F'
    case Aisle => 'X'
    case Storage => 'S'
    case Booked(_) => 'R'
  }

  predicate IsReferenceChar(ch: char) {
    'A' <= ch <= 'Z' || '0' <= ch <= '9'
  }

  /** An 8-character code over the upper-case letters and the digits. */
  predicate IsReference(s: string) {
    |s| == ReferenceLength && forall i :: 0 <= i < |s| ==> IsReferenceChar(s[i])
  }

  /** The seat of a booking, numbered row by row. */
  function Slot(b: Booking): (slot: int) {
    b.seatRow * Columns + b.seatColumn
  }

  /** Keys whose bookings sit on pairwise distinct slots of a set are no more
      numerous than the set. */
  lemma {:induction false} DistinctSlotsBound(keys: set<string>, m: map<string, Booking>, slots: set<int>)
    requires keys <= m.Keys
    requires forall k :: k in keys ==> Slot(m[k]) in slots
    requires forall k1, k2 :: k1 in keys && k2 in keys && k1 != k2 ==> Slot(m[k1]) != Slot(m[k2])
    ensures |keys| <= |slots|
  {
    if keys != {} {
      var k :| k in keys;
      DistinctSlotsBound(keys - {k}, m, slots - {Slot(m[k])});
    }
  }

  /** The slots 0 .. n - 1, as a set of n elements. */
  function SlotRange(n: nat): (slots: set<int>)
    ensures forall i :: i in slots <==> 0 <= i < n
    ensures |slots| == n
  {
    if n == 0 then {} else SlotRange(n - 1) + {n - 1}
  }

  /** The cabin has 20 bookable seats: the layout blocks the four cells of
      row 3 and the storage cells of rows 5 and 6. */
  const BookableSeats: int := 20

  /** The slots of the cells the layout blocks. */
  const BlockedSlots: set<int> := {12, 13, 14, 15, 22, 23, 26, 27}

  /** The slots of the bookable seats: exactly the cells the layout leaves
      free, and BookableSeats of them. */
  function BookableSlots(): (slots: set<int>)
    ensures forall row, column :: InBounds(row, column) ==>
              (row * Columns + column in slots <==> Layout(row, column) == Free)
    ensures |slots| == BookableSeats
  {
    var all := SlotRange(Rows * Columns);
    assert BlockedSlots <= all;
    assert |BlockedSlots| == 8;
    assert |all - BlockedSlots| == |all| - |BlockedSlots|;
    all - BlockedSlots
  }
}
