/** The grid as the Python code builds and indexes it, kept apart from the
    engine: a list of row objects, where two rows may be the same object, and
    subscripts that count from the end when negative. The lemmas show the two
    ways this departs from the engine's intended behaviour. */
module AsWritten {
  import opened Cabin

  datatype Option<T> = None | Some(value: T)

  /** A Python list of rows: position r refers to row object rowIds[r]. */
  datatype PyGrid = PyGrid(rowIds: seq<int>, rows: map<int, seq<Cell>>)

  predicate WellFormed(g: PyGrid) {
    forall r :: 0 <= r < |g.rowIds| ==> g.rowIds[r] in g.rows
  }

  /** Seven positions, each referring to a row object of four cells. */
  predicate CabinShaped(g: PyGrid) {
    && WellFormed(g)
    && |g.rowIds| == Rows
    && forall r :: 0 <= r < Rows ==> |g.rows[g.rowIds[r]]| == Columns
  }

  /** The grid after the three layout statements of the constructor: every
      cell is as the layout gives it, but rows 5 and 6 are one and the same
      list object. */
  function InitialPyGrid(): (g: PyGrid)
    ensures CabinShaped(g)
    ensures forall r, c :: InBounds(r, c) ==> g.rows[g.rowIds[r]][c] == Layout(r, c)
    ensures g.rowIds[5] == g.rowIds[6]
  {
    var free := [Free, Free, Free, Free];
    PyGrid([0, 1, 2, 3, 4, 5, 5],
           map[0 := free, 1 := free, 2 := free, 3 := [Aisle, Aisle, Aisle, Aisle],
               4 := free, 5 := [Free, Free, Storage, Storage]])
  }

  /** Python subscripting of a sequence of length n: negative subscripts count
      from the end, anything else outside the sequence raises IndexError. */
  function PyIndex(n: int, i: int): (k: Option<int>)
    ensures k.Some? <==> -n <= i < n
    ensures k.Some? ==> 0 <= k.value < n && (k.value == i || k.value == i + n)
  {
    if 0 <= i < n then Some(i)
    else if -n <= i < 0 then Some(i + n)
    else None
  }

  /** The cell read by seating[row][column], if no IndexError is raised. On a
      7 x 4 grid an address inside the grid reads its own cell, a negative
      one inside -7 .. -1 x -4 .. -1 reads the cell counted from the end, and
      anything else raises. */
  function PyCell(g: PyGrid, row: int, column: int): (cell: Option<Cell>)
    requires WellFormed(g)
    ensures CabinShaped(g) ==>
              (cell.Some? <==> -Rows <= row < Rows && -Columns <= column < Columns)
    ensures CabinShaped(g) && InBounds(row, column) ==>
              cell == Some(g.rows[g.rowIds[row]][column])
    ensures CabinShaped(g) && InBounds(row + Rows, column) ==>
              cell == Some(g.rows[g.rowIds[row + Rows]][column])
  {
    match PyIndex(|g.rowIds|, row)
    case None => None
    case Some(r) =>
      var line := g.rows[g.rowIds[r]];
      match PyIndex(|line|, column)
      case None => None
      case Some(c) => Some(line[c])
  }

  /** The validity check as written: IndexError means invalid. On a 7 x 4
      grid it rejects every address outside -7 .. 6 x -4 .. 3, and inside the
      grid it accepts exactly the cells that are free or booked. */
  function AsWrittenSeatValid(g: PyGrid, row: int, column: int): (valid: bool)
    requires WellFormed(g)
    ensures CabinShaped(g) && !(-Rows <= row < Rows && -Columns <= column < Columns) ==> !valid
    ensures CabinShaped(g) && InBounds(row, column) ==>
              (valid <==> g.rows[g.rowIds[row]][column].Free? || g.rows[g.rowIds[row]][column].Booked?)
  {
    match PyCell(g, row, column)
    case None => false
    case Some(cell) => IsSeatValueValid(cell)
  }

  /** seating[row][column] = v, at an address that does not raise: the row
      object is updated, so every position referring to it sees the change,
      and the other cells of that row object keep their values. */
  function PyStore(g: PyGrid, row: int, column: int, v: Cell): (g': PyGrid)
    requires WellFormed(g)
    requires PyCell(g, row, column).Some?
    ensures WellFormed(g') && g'.rowIds == g.rowIds
    ensures CabinShaped(g) ==> CabinShaped(g')
    ensures var target := g.rowIds[PyIndex(|g.rowIds|, row).value];
            && (forall r :: 0 <= r < |g.rowIds| && g.rowIds[r] == target ==>
                  PyCell(g', r, column) == Some(v))
            && (forall r, c :: 0 <= r < |g.rowIds| && g.rowIds[r] != target ==>
                  PyCell(g', r, c) == PyCell(g, r, c))
    ensures var target := g.rowIds[PyIndex(|g.rowIds|, row).value];
            var written := PyIndex(|g.rows[target]|, column).value;
            && target in g'.rows
            && |g'.rows[target]| == |g.rows[target]|
            && forall c :: 0 <= c < |g.rows[target]| && c != written ==>
                 g'.rows[target][c] == g.rows[target][c]
  {
    var r := PyIndex(|g.rowIds|, row).value;
    var line := g.rows[g.rowIds[r]];
    var c := PyIndex(|line|, column).value;
    g.(rows := g.rows[g.rowIds[r] := line[c := v]])
  }

  /** Booking seat (5, c) as written puts the same reference on seat (6, c):
      one reference then sits in two cells, against the one-to-one ledger. */
  lemma AliasedRowsShareBooking(column: int, reference: string)
    requires 0 <= column < 2
    ensures var g := PyStore(InitialPyGrid(), 5, column, Booked(reference));
            PyCell(g, 5, column) == Some(Booked(reference)) &&
            PyCell(g, 6, column) == Some(Booked(reference))
  {
  }

  /** On the grid as built, the check as written accepts the negative row -1
      (read as row 6) although (-1, 0) is outside the cabin. */
  lemma NegativeRowAccepted()
    ensures AsWrittenSeatValid(InitialPyGrid(), -1, 0)
    ensures !InBounds(-1, 0)
  {
  }

  /** Within the cabin the check as written agrees with the layout, and a
      negative row r in -7 .. -1 is answered for row r + 7. */
  lemma AsWrittenSeatValidOnInitial(row: int, column: int)
    requires -Rows <= row < Rows && 0 <= column < Columns
    ensures AsWrittenSeatValid(InitialPyGrid(), row, column) ==
            (Layout(if row < 0 then row + Rows else row, column) == Free)
  {
  }
}
