# Seat booking engine

A model of the seat-grid and booking-ledger engine of a small airline seat
booking system (class `SeatBookingSystem`). The cabin is a 7 x 4 grid (rows and columns counted from 0). Row 3
is aisle. The last two columns of rows 5 and 6 are storage. Every other cell
is a seat that is either free or holds an 8-character booking reference made
of upper-case letters and digits. A ledger maps each reference to the
passenger's passport number, first name and last name, and to the seat's row
and column.

Operations:

- the validity check of an address, and of a raw cell value;
- the availability query, which returns `Invalid`, `Available` or `Taken` with the booking's details;
- booking, which returns `Success(reference)` or `SeatUnavailable`;
- release, which returns `Freed`, `AlreadyFreeOrInvalid` or `BookingNotFound`;
- generation of a fresh reference;
- the per-cell letter of the booking-state display.

The results are datatypes. They take the place of the source's coloured messages.

Files:

- `cabin.dfy`, module `Cabin`: cells, bookings, result types, the fixed layout, the
  reference format, the display letter, and a counting lemma for ledgers.
- `references.dfy`, module `References`: a fresh well-formed reference exists for
  every ledger the cabin can hold.
- `engine.dfy`, module `Engine`: class `SeatBookingSystem`. It holds the grid
  as an `array2<Cell>` updated in place and the ledger as a `map` field. Its
  invariant `Valid()` says four things:
  - the grid has the cabin's shape and blocked cells never change;
  - every booked cell's reference is a ledger key whose entry names that cell;
  - every ledger key is a well-formed reference booked on the cell its entry names;
  - hence each reference sits in exactly one cell.

  The module also has a book-then-free round trip and a concrete scenario.
- `as_written.dfy`, module `AsWritten`: the grid as the Python builds and
  indexes it, for the two findings below.

The model follows the code where it is the intended behaviour. It departs from
the code in two places, both listed under "## Findings":

- Rows 5 and 6 are independent rows.
- Bounds are `0 <= row < 7` and `0 <= column < 4`.

## Model

| member | source | states |
|---|---|---|
| `Cabin.Layout` | SeatBookingSystem.py:46-48 | the built layout never holds a booking: every cell is aisle, storage or free |
| `Cabin.BookableSlots` | SeatBookingSystem.py:46-48 | the bookable seats are exactly the cells the layout leaves free, 20 of them |
| `Cabin.IsSeatValueValid` | SeatBookingSystem.py:86-87 | a raw cell value is valid exactly when it is free or booked, i.e. false exactly for aisle and storage |
| `Cabin.DisplayCode` | SeatBookingSystem.py:192 | the display shows 'R' exactly for a cell that is valid as a raw value and not 'F'; 'F', 'X', 'S' exactly for free, aisle and storage |
| `Engine.SeatBookingSystem.constructor` | SeatBookingSystem.py:44-49 | a new engine has every cell as the layout gives it, an empty ledger, and satisfies the invariant |
| `Engine.SeatBookingSystem.IsSeatValid` | SeatBookingSystem.py:94-98 | an address is valid exactly when it is inside the 7 x 4 grid and the layout does not block it; booked seats are valid, out-of-range addresses give false |
| `Engine.SeatBookingSystem.CheckAvailability` | SeatBookingSystem.py:112-126 | Invalid exactly for invalid addresses, Available exactly for free cells, Taken exactly for booked cells, with the reference in the cell and passport and names from the ledger entry, which names that same seat; reads no more than the state |
| `Engine.SeatBookingSystem.ShowBookingState` | SeatBookingSystem.py:189-193 | a 7 x 4 grid of letters, each the display letter of its cell, 'R' exactly where a seat is booked; the state is not changed |
| `Engine.SeatBookingSystem.GenerateUniqueBookingReference` | SeatBookingSystem.py:65-69 | the result has 8 characters, all in A-Z or 0-9, and is not a ledger key; grid and ledger are not changed |
| `Engine.SeatBookingSystem.BookSeat` | SeatBookingSystem.py:144-157 | fails, changing nothing, exactly when the address is invalid or the cell not free; otherwise the cell holds a fresh well-formed reference, the ledger gains exactly the entry of the given fields and seat, no other cell changes, the invariant is kept, and the query then reports Taken with the given fields |
| `Engine.SeatBookingSystem.FreeSeat` | SeatBookingSystem.py:172-182 | AlreadyFreeOrInvalid exactly for invalid or free cells, BookingNotFound exactly for a booked cell whose reference is not a key (both change nothing, the cell stays booked); otherwise exactly that reference leaves the ledger and exactly that cell becomes free; the invariant is kept and rules BookingNotFound out |
| `Engine.ReferenceHasOneSeat` | SeatBookingSystem.py:149-156 | under the invariant a reference found in a cell is a ledger key and sits in no other cell |
| `Engine.LedgerFitsCabin` | SeatBookingSystem.py:149-156 | under the invariant the ledger holds at most 20 bookings, one per bookable seat |
| `References.FreshReferenceExists` | SeatBookingSystem.py:65-69 | for any ledger of at most 28 keys (the ledger holds at most 20) a well-formed reference outside it exists, so the retry loop always has a draw that ends it |
| `Engine.BookThenFree` | SeatBookingSystem.py:144-180 | booking a free seat and then freeing it succeeds both times and leaves grid and ledger as they were |
| `Engine.FirstSeatScenario` | SeatBookingSystem.py:112-182 | on a new engine, booking (0, 0) for P123 Ann Lee succeeds with a well-formed reference and the query reports Taken with that reference and those fields; freeing it returns Freed and the query reports Available; booking the aisle cell (3, 0) fails |
| `AsWritten.PyIndex` | SeatBookingSystem.py:96 | Python subscripting succeeds exactly for -n <= i < n and then reads position i or i + n |
| `AsWritten.InitialPyGrid` | SeatBookingSystem.py:46-48 | the grid as built has every cell as the layout gives it, with rows 5 and 6 one and the same list object |
| `AsWritten.PyCell` | SeatBookingSystem.py:96 | on a 7 x 4 grid, seating[row][column] raises exactly outside -7 .. 6 x -4 .. 3, reads its own cell inside the grid and the cell counted from the end for a negative row |
| `AsWritten.AsWrittenSeatValid` | SeatBookingSystem.py:95-98 | the check as written rejects every address outside -7 .. 6 x -4 .. 3 and, inside the grid, accepts exactly free or booked cells |
| `AsWritten.PyStore` | SeatBookingSystem.py:149 | `seating[row][column] = v` makes every position that refers to the same row object read v there, and the other cells of that row object keep their values; positions on other row objects are unchanged |
| `AsWritten.AliasedRowsShareBooking` | SeatBookingSystem.py:48 | as written, storing a reference at (5, c) also makes (6, c) hold it |
| `AsWritten.NegativeRowAccepted` | SeatBookingSystem.py:95-98 | as written, (-1, 0) passes the validity check although it is outside the grid |
| `AsWritten.AsWrittenSeatValidOnInitial` | SeatBookingSystem.py:95-98 | on the grid as built, the check as written agrees with the layout inside the grid and answers a negative row r for row r + 7 |

## Left out

- Colour output is not modelled: `TextColor`, `TEXT_COLORS`, `ANSI_ESCAPE` and the console-mode call `os.system("")`. Operations return result datatypes instead of coloured strings.
- The `print` calls of `show_booking_state` are I/O. `ShowBookingState` returns the letters instead of printing them.
- `run` is not modelled: the menu loop, `input()`, the `isdigit` checks and the 1-based to 0-based conversion are I/O plumbing. Note that input "0" becomes -1 there, which meets the negative-index finding below.
- The `actions` dispatch table is control-flow plumbing. The operations are called directly.
- Engine.SeatBookingSystem.GenerateUniqueBookingReference: each call of `random.choices` is a nondeterministic choice of some well-formed reference. The distribution is not modelled. A draw never repeats an already rejected candidate, which `random.choices` may do; this is what lets the loop be proved to end.
- Engine.SeatBookingSystem.GenerateUniqueBookingReference: requires the invariant. It uses it only to bound the ledger at 20 keys, within the 28 that `References.FreshReferenceExists` needs, which is what makes a fresh reference provably exist. The Python loop makes no such demand.
- Engine.SeatBookingSystem.CheckAvailability: requires the invariant. On a ledger missing a grid reference Python raises `KeyError`; the model does not have that path, because it cannot happen under the invariant.
- The `None`-argument exception of `is_seat_valid` (lines 91-92) is not modelled: coordinates are typed integers.
- Python cells are arbitrary strings. The model has only the four kinds of cell that the engine ever stores.
- Concurrency is out of scope: the source is single-threaded.

## Findings

| source | as written | input that shows it | evidently intended | confidence | as-written member | corrected member |
|---|---|---|---|---|---|---|
| SeatBookingSystem.py:48 | `[['F','F','S','S']] * 2` makes rows 5 and 6 one list object | `book_seat(5, 0, ...)`: seat (6, 0) shows the same reference | rows 5 and 6 are independent; a booking changes one cell | high, not executed | `AsWritten.AliasedRowsShareBooking` | `Engine.SeatBookingSystem.BookSeat` |
| SeatBookingSystem.py:95-98 | bounds are enforced only by `IndexError`, but negative subscripts count from the end | `is_seat_valid(-1, 0)` returns True (row 6) | addresses outside 0..6 x 0..3 are invalid | high, not executed | `AsWritten.NegativeRowAccepted` | `Engine.SeatBookingSystem.IsSeatValid` |
