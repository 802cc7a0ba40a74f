/** The seat booking engine: a 7 x 4 seat grid updated in place and a ledger
    from booking reference to booking, kept in one-to-one correspondence. */
module Engine {
  import opened Cabin
  import References

  class SeatBookingSystem {
    /** The seat grid; the grid object itself is never replaced. */
    const seating: array2<Cell>
    /** The booking ledger, keyed by booking reference. */
    var bookings: map<string, Booking>

    /** The grid has the cabin's shape and every cell agrees with the layout:
        blocked cells keep their marking for good. */
    ghost predicate Shaped()
      reads this, seating
    {
      && seating.Length0 == Rows
      && seating.Length1 == Columns
      && forall r, c :: InBounds(r, c) ==> Conforms(seating[r, c], Layout(r, c))
    }

    /** The class invariant: on top of the shape, every booked cell's
        reference is a ledger key whose stored seat is that cell, and every
        ledger key is a well-formed reference booked on the cell its entry
        names. */
    ghost predicate Valid()
      reads this, seating
    {
      && Shaped()
      && (forall r, c :: InBounds(r, c) && seating[r, c].Booked? ==>
            var k := seating[r, c].reference;
            k in bookings && bookings[k].seatRow == r && bookings[k].seatColumn == c)
      && (forall k :: k in bookings ==>
            && IsReference(k)
            && InBounds(bookings[k].seatRow, bookings[k].seatColumn)
            && seating[bookings[k].seatRow, bookings[k].seatColumn] == Booked(k))
    }

    /** The cell at (row, column) exists and is free. */
    predicate Vacant(row: int, column: int)
      reads this, seating
      requires Shaped()
    {
      InBounds(row, column) && seating[row, column] == Free
    }

    /** The cell at (row, column) exists and holds a booking reference. */
    predicate Occupied(row: int, column: int)
      reads this, seating
      requires Shaped()
    {
      InBounds(row, column) && seating[row, column].Booked?
    }

    constructor ()
      ensures Valid() && fresh(seating)
      ensures bookings == map[]
      ensures forall r, c :: InBounds(r, c) ==> seating[r, c] == Layout(r, c)
    {
      seating := new Cell[Rows, Columns]((r, c) => Layout(r, c));
      bookings := map[];
    }

    /** Whether (row, column) addresses a seat: in the grid and not blocked.
        Booked seats are valid; out-of-range coordinates give false. */
    function IsSeatValid(row: int, column: int): (valid: bool)
      reads this, seating
      requires Shaped()
      ensures valid <==> InBounds(row, column) && Layout(row, column) == Free
    {
      InBounds(row, column) && IsSeatValueValid(seating[row, column])
    }

    /** The availability of a seat, with the booking's details when taken. */
    function CheckAvailability(row: int, column: int): (a: Availability)
      reads this, seating
      requires Valid()
      ensures a == Invalid <==> !(InBounds(row, column) && Layout(row, column) == Free)
      ensures a == Available <==> Vacant(row, column)
      ensures a.Taken? <==> Occupied(row, column)
      ensures a.Taken? ==>
                && seating[row, column] == Booked(a.reference)
                && a.reference in bookings
                && var b := bookings[a.reference];
                && b.seatRow == row && b.seatColumn == column
                && (a.passportNumber, a.firstName, a.lastName) == (b.passportNumber, b.firstName, b.lastName)
    {
      if !IsSeatValid(row, column) then Invalid
      else
        var seat := seating[row, column];
        if seat == Free then Available
        else
          var b := bookings[seat.reference];
          Taken(seat.reference, b.passportNumber, b.firstName, b.lastName)
    }

    /** The booking-state display: one letter per cell, 'R' for booked. */
    method ShowBookingState() returns (display: seq<seq<char>>)
      requires Shaped()
      ensures |display| == Rows
      ensures forall r :: 0 <= r < Rows ==> |display[r]| == Columns
      ensures forall r, c :: InBounds(r, c) ==>
                (display[r][c] == 'R' <==> Occupied(r, c))
      ensures forall r, c :: InBounds(r, c) ==> display[r][c] == DisplayCode(seating[r, c])
    {
      display := [];
      for i := 0 to Rows
        invariant |display| == i
        invariant forall r :: 0 <= r < i ==> |display[r]| == Columns
        invariant forall r, c :: 0 <= r < i && 0 <= c < Columns ==>
                    display[r][c] == DisplayCode(seating[r, c])
      {
        var line: seq<char> := [];
        for j := 0 to Columns
          invariant |line| == j
          invariant forall c :: 0 <= c < j ==> line[c] == DisplayCode(seating[i, c])
        {
          line := line + [DisplayCode(seating[i, j])];
        }
        display := display + [line];
      }
    }

    /** A well-formed reference that is not a ledger key. Each draw stands for
        one call of the random source; a draw that is already a key is
        rejected and another one is drawn. */
    method GenerateUniqueBookingReference() returns (reference: string)
      requires Valid()
      ensures IsReference(reference)
      ensures reference !in bookings
    {
      LedgerFitsCabin(this);
      var rejected: set<string> := {};
      References.FreshReferenceExists(rejected);
      reference :| IsReference(reference) && reference !in rejected;
      while reference in bookings
        invariant rejected <= bookings.Keys
        invariant IsReference(reference) && reference !in rejected
        decreases |bookings.Keys - rejected|
      {
        assert bookings.Keys - (rejected + {reference}) < bookings.Keys - rejected;
        rejected := rejected + {reference};
        References.FreshReferenceExists(rejected);
        reference :| IsReference(reference) && reference !in rejected;
      }
    }

    /** Book a free seat for a passenger. The passenger fields are taken as
        they are; the seat's coordinates go into the ledger entry. */
    method BookSeat(row: int, column: int, passportNumber: string, firstName: string, lastName: string)
      returns (outcome: BookOutcome)
      requires Valid()
      modifies this, seating
      ensures Valid()
      ensures outcome == SeatUnavailable <==> !old(Vacant(row, column))
      ensures outcome == SeatUnavailable ==>
                && bookings == old(bookings)
                && forall r, c :: InBounds(r, c) ==> seating[r, c] == old(seating[r, c])
      ensures outcome.Success? ==>
                && IsReference(outcome.reference)
                && outcome.reference !in old(bookings)
                && bookings == old(bookings)[outcome.reference :=
                     Booking(passportNumber, firstName, lastName, row, column)]
                && seating[row, column] == Booked(outcome.reference)
                && (forall r, c :: InBounds(r, c) && (r, c) != (row, column) ==>
                      seating[r, c] == old(seating[r, c]))
                && CheckAvailability(row, column) ==
                     Taken(outcome.reference, passportNumber, firstName, lastName)
    {
      if !IsSeatValid(row, column) || seating[row, column] != Free {
        return SeatUnavailable;
      }
      var reference := GenerateUniqueBookingReference();
      seating[row, column] := Booked(reference);
      bookings := bookings[reference := Booking(passportNumber, firstName, lastName, row, column)];
      outcome := Success(reference);
    }

    /** Release a booked seat. An invalid address and a free seat give the
        same outcome; a booked cell whose reference is missing from the
        ledger is left booked. */
    method FreeSeat(row: int, column: int) returns (outcome: FreeOutcome)
      requires Shaped()
      modifies this, seating
      ensures Shaped()
      ensures old(Valid()) ==> Valid()
      ensures outcome == AlreadyFreeOrInvalid <==> !old(Occupied(row, column))
      ensures outcome == BookingNotFound <==>
                old(Occupied(row, column)) && old(seating[row, column].reference) !in old(bookings)
      ensures old(Valid()) ==> outcome != BookingNotFound
      ensures outcome != Freed ==>
                && bookings == old(bookings)
                && forall r, c :: InBounds(r, c) ==> seating[r, c] == old(seating[r, c])
      ensures outcome == Freed ==>
                && bookings == old(bookings) - {old(seating[row, column].reference)}
                && seating[row, column] == Free
                && (forall r, c :: InBounds(r, c) && (r, c) != (row, column) ==>
                      seating[r, c] == old(seating[r, c]))
      ensures outcome == Freed && Valid() ==> CheckAvailability(row, column) == Available
    {
      if !IsSeatValid(row, column) || seating[row, column] == Free {
        return AlreadyFreeOrInvalid;
      }
      var reference := seating[row, column].reference;
      if reference in bookings {
        bookings := bookings - {reference};
        seating[row, column] := Free;
        return Freed;
      }
      return BookingNotFound;
    }
  }

  /** Under the invariant no ledger key is held by two cells, and no cell but
      the one its entry names holds it. */
  lemma ReferenceHasOneSeat(sys: SeatBookingSystem, k: string, row: int, column: int)
    requires sys.Valid()
    requires InBounds(row, column) && sys.seating[row, column] == Booked(k)
    ensures k in sys.bookings
    ensures forall r, c :: InBounds(r, c) && sys.seating[r, c] == Booked(k) ==> r == row && c == column
  {
  }

  /** The ledger never holds more bookings than the cabin has bookable
      seats: each booking sits on its own seat the layout leaves free. */
  lemma LedgerFitsCabin(sys: SeatBookingSystem)
    requires sys.Valid()
    ensures |sys.bookings| <= BookableSeats
  {
    var m := sys.bookings;
    forall k | k in m
      ensures Slot(m[k]) in BookableSlots()
    {
      assert Conforms(sys.seating[m[k].seatRow, m[k].seatColumn], Layout(m[k].seatRow, m[k].seatColumn));
    }
    forall k1, k2 | k1 in m && k2 in m && k1 != k2
      ensures Slot(m[k1]) != Slot(m[k2])
    {
      assert sys.seating[m[k1].seatRow, m[k1].seatColumn] == Booked(k1);
      assert sys.seating[m[k2].seatRow, m[k2].seatColumn] == Booked(k2);
    }
    DistinctSlotsBound(m.Keys, m, BookableSlots());
    assert |m| == |m.Keys|;
  }

  /** Booking a free seat and then freeing it succeeds both times and gives
      back the grid and the ledger as they were. */
  method BookThenFree(sys: SeatBookingSystem, row: int, column: int,
                      passportNumber: string, firstName: string, lastName: string)
    returns (booked: BookOutcome, freed: FreeOutcome)
    requires sys.Valid()
    requires sys.Vacant(row, column)
    modifies sys, sys.seating
    ensures sys.Valid()
    ensures booked.Success? && freed == Freed
    ensures sys.bookings == old(sys.bookings)
    ensures forall r, c :: InBounds(r, c) ==> sys.seating[r, c] == old(sys.seating[r, c])
  {
    booked := sys.BookSeat(row, column, passportNumber, firstName, lastName);
    freed := sys.FreeSeat(row, column);
    assert sys.bookings == old(sys.bookings);
  }

  /** A fresh cabin: booking seat (0, 0) for "P123" "Ann" "Lee" succeeds and
      the seat shows taken by that passenger under the returned reference;
      freeing it succeeds and the seat shows available again; the aisle cell
      (3, 0) cannot be booked. */
  method FirstSeatScenario()
    returns (booked: BookOutcome, taken: Availability, freed: FreeOutcome,
             released: Availability, aisle: BookOutcome)
    ensures booked.Success? && IsReference(booked.reference)
    ensures taken.Taken? && taken.reference == booked.reference
    ensures taken.passportNumber == "P123"
    ensures taken.firstName == "Ann" && taken.lastName == "Lee"
    ensures freed == Freed
    ensures released == Available
    ensures aisle == SeatUnavailable
  {
    var sys := new SeatBookingSystem();
    booked := sys.BookSeat(0, 0, "P123", "Ann", "Lee");
    taken := sys.CheckAvailability(0, 0);
    freed := sys.FreeSeat(0, 0);
    released := sys.CheckAvailability(0, 0);
    aisle := sys.BookSeat(3, 0, "P456", "Bob", "Ray");
  }
}
