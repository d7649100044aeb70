/** The play grid of `CrosswordGrid.tsx`: the number shown in each cell, the
    clues a cell belongs to, what a click on a cell does, and the search for the
    next or previous letter cell when the cursor moves. */
module CrosswordGrid {
  import opened Wrappers
  import opened Puzzle

  // ---- buildCellNumbers ----

  /** Each clue in turn writes its number at its cell, a later clue overwriting
      an earlier one. */
  function CellNumbers(clues: seq<Clue>): map<Coord, int> {
    if clues == [] then map[]
    else
      var x := clues[|clues| - 1];
      CellNumbers(clues[..|clues| - 1])[Coord(x.row, x.col) := x.number]
  }

  function BuildCellNumbers(p: CrosswordData): map<Coord, int> {
    CellNumbers(p.across + p.down)
  }

  /** A cell shows a number exactly when some clue starts there, and the number
      is that of the last such clue. */
  lemma {:induction false} CellNumbersLast(clues: seq<Clue>, key: Coord)
    ensures key in CellNumbers(clues) <==> exists i :: 0 <= i < |clues| && Coord(clues[i].row, clues[i].col) == key
    ensures key in CellNumbers(clues) ==>
      exists i :: (0 <= i < |clues| && Coord(clues[i].row, clues[i].col) == key &&
        CellNumbers(clues)[key] == clues[i].number &&
        forall j :: i < j < |clues| ==> Coord(clues[j].row, clues[j].col) != key)
    decreases |clues|
  {
    if clues != [] {
      var init := clues[..|clues| - 1];
      CellNumbersLast(init, key);
      assert forall i :: 0 <= i < |init| ==> init[i] == clues[i];
    }
  }

  /** Writing the down clues after the across clues: a down clue's number wins
      over an across clue at the same cell. */
  lemma {:induction false} CellNumbersConcat(a: seq<Clue>, d: seq<Clue>)
    ensures CellNumbers(a + d) == CellNumbers(a) + CellNumbers(d)
    decreases |d|
  {
    if d == [] {
      assert a + d == a;
    } else {
      var ad := a + d;
      assert ad[..|ad| - 1] == a + d[..|d| - 1];
      CellNumbersConcat(a, d[..|d| - 1]);
    }
  }

  lemma DownNumbersWin(p: CrosswordData, key: Coord)
    ensures key in CellNumbers(p.down) ==> key in BuildCellNumbers(p) && BuildCellNumbers(p)[key] == CellNumbers(p.down)[key]
    ensures key !in CellNumbers(p.down) ==> (key in BuildCellNumbers(p) <==> key in CellNumbers(p.across))
    ensures key !in CellNumbers(p.down) && key in CellNumbers(p.across) ==> BuildCellNumbers(p)[key] == CellNumbers(p.across)[key]
  {
    CellNumbersConcat(p.across, p.down);
  }

  // ---- getCellClues ----

  /** The clues of a puzzle all sit on cells of its square grid, as the server's
      validator requires. */
  predicate OnGrid(clues: seq<Clue>, n: int) {
    forall k :: 0 <= k < |clues| ==> 0 <= clues[k].row < n && 0 <= clues[k].col < n
  }

  predicate WellFormed(p: CrosswordData) {
    IsSquare(p.grid, p.size) && OnGrid(p.across, p.size) && OnGrid(p.down, p.size)
  }

  /** The length of the run of letter cells from (r, c) rightwards. */
  function RunAcross(g: Grid, n: int, r: int, c: int): (len: nat)
    requires IsSquare(g, n) && 0 <= r < n && 0 <= c
    ensures c + len <= n || len == 0
    ensures forall k :: c <= k < c + len ==> g[r][k].Some?
    ensures c + len >= n || g[r][c + len].None?
    decreases n - c
  {
    if c >= n || g[r][c].None? then 0 else 1 + RunAcross(g, n, r, c + 1)
  }

  /** The length of the run of letter cells from (r, c) downwards. */
  function RunDown(g: Grid, n: int, r: int, c: int): (len: nat)
    requires IsSquare(g, n) && 0 <= r && 0 <= c < n
    ensures r + len <= n || len == 0
    ensures forall k :: r <= k < r + len ==> g[k][c].Some?
    ensures r + len >= n || g[r + len][c].None?
    decreases n - r
  {
    if r >= n || g[r][c].None? then 0 else 1 + RunDown(g, n, r + 1, c)
  }

  /** The clue a cell can point at: its number and direction. */
  datatype ClueRef = ClueRef(number: int, direction: Direction)

  /** The cell (row, col) lies in the clue's entry. */
  predicate Covers(g: Grid, n: int, x: Clue, d: Direction, row: int, col: int)
    requires IsSquare(g, n) && 0 <= x.row < n && 0 <= x.col < n
  {
    match d
    case Across => row == x.row && x.col <= col < x.col + RunAcross(g, n, x.row, x.col)
    case Down => col == x.col && x.row <= row < x.row + RunDown(g, n, x.row, x.col)
  }

  /** The clues of `clues` covering (row, col), in order, as direction `d`. */
  function Hits(g: Grid, n: int, clues: seq<Clue>, d: Direction, row: int, col: int): seq<ClueRef>
    requires IsSquare(g, n) && OnGrid(clues, n)
  {
    if clues == [] then []
    else
      var x := clues[|clues| - 1];
      Hits(g, n, clues[..|clues| - 1], d, row, col) +
        if Covers(g, n, x, d, row, col) then [ClueRef(x.number, d)] else []
  }

  /** One more clue adds at most its own reference. */
  lemma HitsStep(g: Grid, n: int, clues: seq<Clue>, i: int, d: Direction, row: int, col: int)
    requires IsSquare(g, n) && OnGrid(clues, n) && 0 <= i < |clues|
    ensures Hits(g, n, clues[..i + 1], d, row, col) == Hits(g, n, clues[..i], d, row, col) +
      if Covers(g, n, clues[i], d, row, col) then [ClueRef(clues[i].number, d)] else []
  {
    assert clues[..i + 1][..i] == clues[..i];
  }

  /** What `getCellClues` returns: the across clues through the cell, then the
      down clues. */
  function CellClues(p: CrosswordData, row: int, col: int): seq<ClueRef>
    requires WellFormed(p)
  {
    Hits(p.grid, p.size, p.across, Across, row, col) + Hits(p.grid, p.size, p.down, Down, row, col)
  }

  /** The `len` loop "walking right" from a clue's cell. */
  method AcrossLength(g: Grid, n: int, row: int, col: int) returns (len: nat)
    requires IsSquare(g, n) && 0 <= row < n && 0 <= col < n
    ensures len == RunAcross(g, n, row, col)
  {
    len := 0;
    var c := col;
    while c < n && g[row][c].Some?
      invariant col <= c <= n
      invariant len == c - col
      invariant RunAcross(g, n, row, col) == len + RunAcross(g, n, row, c)
      decreases n - c
    {
      len := len + 1;
      c := c + 1;
    }
  }

  /** The `len` loop walking down from a clue's cell. */
  method DownLength(g: Grid, n: int, row: int, col: int) returns (len: nat)
    requires IsSquare(g, n) && 0 <= row < n && 0 <= col < n
    ensures len == RunDown(g, n, row, col)
  {
    len := 0;
    var r := row;
    while r < n && g[r][col].Some?
      invariant row <= r <= n
      invariant len == r - row
      invariant RunDown(g, n, row, col) == len + RunDown(g, n, r, col)
      decreases n - r
    {
      len := len + 1;
      r := r + 1;
    }
  }

  /** `getCellClues`: the loop over the across clues, then over the down clues. */
  method GetCellClues(p: CrosswordData, row: int, col: int) returns (clues: seq<ClueRef>)
    requires WellFormed(p)
    ensures clues == CellClues(p, row, col)
  {
    var across := AcrossHits(p.grid, p.size, p.across, row, col);
    var down := DownHits(p.grid, p.size, p.down, row, col);
    clues := across + down;
  }

  /** The loop of `getCellClues` over the across clues. */
  method AcrossHits(g: Grid, n: int, xs: seq<Clue>, row: int, col: int) returns (clues: seq<ClueRef>)
    requires IsSquare(g, n) && OnGrid(xs, n)
    ensures clues == Hits(g, n, xs, Across, row, col)
  {
    clues := [];
    var i := 0;
    while i < |xs|
      invariant 0 <= i <= |xs|
      invariant clues == Hits(g, n, xs[..i], Across, row, col)
    {
      var x := xs[i];
      var len := AcrossLength(g, n, x.row, x.col);
      if row == x.row && col >= x.col && col < x.col + len {
        clues := clues + [ClueRef(x.number, Across)];
      }
      HitsStep(g, n, xs, i, Across, row, col);
      i := i + 1;
    }
    assert xs[..i] == xs;
  }

  /** The loop of `getCellClues` over the down clues. */
  method DownHits(g: Grid, n: int, xs: seq<Clue>, row: int, col: int) returns (clues: seq<ClueRef>)
    requires IsSquare(g, n) && OnGrid(xs, n)
    ensures clues == Hits(g, n, xs, Down, row, col)
  {
    clues := [];
    var i := 0;
    while i < |xs|
      invariant 0 <= i <= |xs|
      invariant clues == Hits(g, n, xs[..i], Down, row, col)
    {
      var x := xs[i];
      var len := DownLength(g, n, x.row, x.col);
      if col == x.col && row >= x.row && row < x.row + len {
        clues := clues + [ClueRef(x.number, Down)];
      }
      HitsStep(g, n, xs, i, Down, row, col);
      i := i + 1;
    }
    assert xs[..i] == xs;
  }

  /** A reference is among the hits exactly when one of the clues with that
      number covers the cell; every hit carries the direction asked for. */
  lemma {:induction false} HitsIff(g: Grid, n: int, clues: seq<Clue>, d: Direction, row: int, col: int, ref: ClueRef)
    requires IsSquare(g, n) && OnGrid(clues, n)
    ensures ref in Hits(g, n, clues, d, row, col) <==>
      ref.direction == d && exists k :: 0 <= k < |clues| && clues[k].number == ref.number && Covers(g, n, clues[k], d, row, col)
    ensures forall h :: h in Hits(g, n, clues, d, row, col) ==> h.direction == d
    decreases |clues|
  {
    if clues != [] {
      var init := clues[..|clues| - 1];
      HitsIff(g, n, init, d, row, col, ref);
      assert forall k :: 0 <= k < |init| ==> init[k] == clues[k];
    }
  }

  /** A cell belongs to an across clue exactly when it is in the clue's row,
      at or after its start and within its run of letter cells; down clues
      likewise by column; across matches come before down matches. */
  lemma CellCluesIff(p: CrosswordData, row: int, col: int, ref: ClueRef)
    requires WellFormed(p)
    ensures ref in CellClues(p, row, col) <==>
      (ref.direction == Across &&
        exists k :: (0 <= k < |p.across| && p.across[k].number == ref.number &&
          Covers(p.grid, p.size, p.across[k], Across, row, col))) ||
      (ref.direction == Down &&
        exists k :: (0 <= k < |p.down| && p.down[k].number == ref.number &&
          Covers(p.grid, p.size, p.down[k], Down, row, col)))
    ensures forall a, b :: 0 <= a < b < |CellClues(p, row, col)| && CellClues(p, row, col)[a].direction == Down ==>
      CellClues(p, row, col)[b].direction == Down
  {
    var ha := Hits(p.grid, p.size, p.across, Across, row, col);
    var hd := Hits(p.grid, p.size, p.down, Down, row, col);
    HitsIff(p.grid, p.size, p.across, Across, row, col, ref);
    HitsIff(p.grid, p.size, p.down, Down, row, col, ref);
    var all := ha + hd;
    forall a, b | 0 <= a < b < |all| && all[a].direction == Down ensures all[b].direction == Down {
      assert a >= |ha|;
      assert all[b] == hd[b - |ha|] && all[b] in hd;
    }
  }

  /** `isCellHighlighted`: the active clue is one of the cell's clues. */
  predicate Highlighted(p: CrosswordData, active: Option<ClueRef>, row: int, col: int)
    requires WellFormed(p)
  {
    active.Some? && active.value in CellClues(p, row, col)
  }

  // ---- The cursor ----

  /** The grid's own state: the active cell and typing direction, and the
      active clue the parent page keeps through `onClueChange`. */
  datatype Cursor = Cursor(activeCell: Option<Coord>, direction: Direction, activeClue: Option<ClueRef>)

  function Flip(d: Direction): Direction {
    match d
    case Across => Down
    case Down => Across
  }

  /** `clues.find(c => c.direction === d)`. */
  function FindDirection(clues: seq<ClueRef>, d: Direction): (r: Option<ClueRef>)
    ensures r.Some? ==> r.value in clues && r.value.direction == d
    ensures r.None? ==> forall x :: x in clues ==> x.direction != d
  {
    if clues == [] then None
    else if clues[0].direction == d then Some(clues[0])
    else FindDirection(clues[1..], d)
  }

  /** `handleCellClick`. */
  function Click(p: CrosswordData, s: Cursor, row: int, col: int): Cursor
    requires WellFormed(p) && 0 <= row < p.size && 0 <= col < p.size
  {
    if p.grid[row][col].None? then s
    else
      var clues := CellClues(p, row, col);
      if s.activeCell == Some(Coord(row, col)) then
        var newDir := Flip(s.direction);
        var m := FindDirection(clues, newDir);
        Cursor(s.activeCell, newDir, if m.Some? then m else s.activeClue)
      else
        var m := FindDirection(clues, s.direction);
        var pick := if m.Some? then m else if clues != [] then Some(clues[0]) else None;
        if pick.Some? then Cursor(Some(Coord(row, col)), pick.value.direction, pick)
        else Cursor(Some(Coord(row, col)), s.direction, s.activeClue)
  }

  /** A click on a black cell does nothing. */
  lemma ClickBlackNoOp(p: CrosswordData, s: Cursor, row: int, col: int)
    requires WellFormed(p) && 0 <= row < p.size && 0 <= col < p.size && p.grid[row][col].None?
    ensures Click(p, s, row, col) == s
  {
  }

  /** A click on a new letter cell makes it active and, when the cell lies in
      some entry, activates one of the cell's clues, in the current direction
      when there is one, so that the cell is highlighted. */
  lemma ClickNewCell(p: CrosswordData, s: Cursor, row: int, col: int)
    requires WellFormed(p) && 0 <= row < p.size && 0 <= col < p.size && p.grid[row][col].Some?
    requires s.activeCell != Some(Coord(row, col))
    ensures Click(p, s, row, col).activeCell == Some(Coord(row, col))
    ensures CellClues(p, row, col) != [] ==>
      (Highlighted(p, Click(p, s, row, col).activeClue, row, col) &&
       Click(p, s, row, col).direction == Click(p, s, row, col).activeClue.value.direction)
    ensures (exists x :: x in CellClues(p, row, col) && x.direction == s.direction) ==>
      Click(p, s, row, col).direction == s.direction
    ensures CellClues(p, row, col) == [] ==> Click(p, s, row, col) == s.(activeCell := Some(Coord(row, col)))
  {
  }

  /** A second click on the active cell flips the direction and, when the cell
      has a clue that way, activates it. */
  lemma ClickAgainFlips(p: CrosswordData, s: Cursor, row: int, col: int)
    requires WellFormed(p) && 0 <= row < p.size && 0 <= col < p.size && p.grid[row][col].Some?
    requires s.activeCell == Some(Coord(row, col))
    ensures Click(p, s, row, col).activeCell == s.activeCell
    ensures Click(p, s, row, col).direction == Flip(s.direction)
    ensures (exists x :: x in CellClues(p, row, col) && x.direction == Flip(s.direction)) ==>
      Highlighted(p, Click(p, s, row, col).activeClue, row, col) &&
      Click(p, s, row, col).activeClue.value.direction == Flip(s.direction)
    ensures (forall x :: x in CellClues(p, row, col) ==> x.direction != Flip(s.direction)) ==>
      Click(p, s, row, col).activeClue == s.activeClue
  {
  }

  /** The first letter cell in row `r` from column `c` rightwards. */
  function ScanRight(g: Grid, n: int, r: int, c: int): (res: Option<int>)
    requires IsSquare(g, n) && 0 <= r < n && 0 <= c
    ensures res.Some? ==>
      (c <= res.value < n && g[r][res.value].Some? &&
       forall k :: c <= k < res.value ==> g[r][k].None?)
    ensures res.None? ==> forall k :: c <= k < n ==> g[r][k].None?
    decreases n - c
  {
    if c >= n then None else if g[r][c].Some? then Some(c) else ScanRight(g, n, r, c + 1)
  }

  /** The first letter cell in column `c` from row `r` downwards. */
  function ScanDown(g: Grid, n: int, r: int, c: int): (res: Option<int>)
    requires IsSquare(g, n) && 0 <= r && 0 <= c < n
    ensures res.Some? ==>
      (r <= res.value < n && g[res.value][c].Some? &&
       forall k :: r <= k < res.value ==> g[k][c].None?)
    ensures res.None? ==> forall k :: r <= k < n ==> g[k][c].None?
    decreases n - r
  {
    if r >= n then None else if g[r][c].Some? then Some(r) else ScanDown(g, n, r + 1, c)
  }

  /** The first letter cell in row `r` from column `c` leftwards. */
  function ScanLeft(g: Grid, n: int, r: int, c: int): (res: Option<int>)
    requires IsSquare(g, n) && 0 <= r < n && c < n
    ensures res.Some? ==>
      (0 <= res.value <= c && g[r][res.value].Some? &&
       forall k :: res.value < k <= c ==> g[r][k].None?)
    ensures res.None? ==> forall k :: 0 <= k <= c ==> g[r][k].None?
    decreases c + 1
  {
    if c < 0 then None else if g[r][c].Some? then Some(c) else ScanLeft(g, n, r, c - 1)
  }

  /** The first letter cell in column `c` from row `r` upwards. */
  function ScanUp(g: Grid, n: int, r: int, c: int): (res: Option<int>)
    requires IsSquare(g, n) && r < n && 0 <= c < n
    ensures res.Some? ==>
      (0 <= res.value <= r && g[res.value][c].Some? &&
       forall k :: res.value < k <= r ==> g[k][c].None?)
    ensures res.None? ==> forall k :: 0 <= k <= r ==> g[k][c].None?
    decreases r + 1
  {
    if r < 0 then None else if g[r][c].Some? then Some(r) else ScanUp(g, n, r - 1, c)
  }

  /** The search of `moveToNextCell`: the first letter cell strictly after
      (row, col) in direction `d`. */
  function NextCell(p: CrosswordData, d: Direction, row: int, col: int): Option<Coord>
    requires IsSquare(p.grid, p.size) && 0 <= row < p.size && 0 <= col < p.size
  {
    match d
    case Across =>
      var c := ScanRight(p.grid, p.size, row, col + 1);
      if c.Some? then Some(Coord(row, c.value)) else None
    case Down =>
      var r := ScanDown(p.grid, p.size, row + 1, col);
      if r.Some? then Some(Coord(r.value, col)) else None
  }

  /** The search of `moveToPrevCell`: the first letter cell strictly before
      (row, col) in direction `d`, towards index 0. */
  function PrevCell(p: CrosswordData, d: Direction, row: int, col: int): Option<Coord>
    requires IsSquare(p.grid, p.size) && 0 <= row < p.size && 0 <= col < p.size
  {
    match d
    case Across =>
      var c := ScanLeft(p.grid, p.size, row, col - 1);
      if c.Some? then Some(Coord(row, c.value)) else None
    case Down =>
      var r := ScanUp(p.grid, p.size, row - 1, col);
      if r.Some? then Some(Coord(r.value, col)) else None
  }

  /** The cursor after a move: the found cell becomes active; with none found
      the cursor stays. */
  function MoveTo(s: Cursor, found: Option<Coord>): Cursor {
    if found.Some? then s.(activeCell := found) else s
  }

  /** The next cell lies strictly after the current one in the direction of
      travel, on its row or column, is a letter cell, and every cell between
      is black; when there is none, every later cell that way is black and the
      cursor does not move. */
  lemma NextCellIsFirst(p: CrosswordData, s: Cursor, d: Direction, row: int, col: int)
    requires IsSquare(p.grid, p.size) && 0 <= row < p.size && 0 <= col < p.size
    ensures var q := NextCell(p, d, row, col);
      (q.Some? ==>
        0 <= q.value.row < p.size && 0 <= q.value.col < p.size && p.grid[q.value.row][q.value.col].Some? &&
        match d
        case Across => q.value.row == row && q.value.col > col && forall k :: col < k < q.value.col ==> p.grid[row][k].None?
        case Down => q.value.col == col && q.value.row > row && forall k :: row < k < q.value.row ==> p.grid[k][col].None?) &&
      (q.None? ==>
        MoveTo(s, q) == s &&
        match d
        case Across => forall k :: col < k < p.size ==> p.grid[row][k].None?
        case Down => forall k :: row < k < p.size ==> p.grid[k][col].None?)
  {
  }

  /** The previous-cell search mirrors the next-cell search towards index 0. */
  lemma PrevCellIsFirst(p: CrosswordData, s: Cursor, d: Direction, row: int, col: int)
    requires IsSquare(p.grid, p.size) && 0 <= row < p.size && 0 <= col < p.size
    ensures var q := PrevCell(p, d, row, col);
      (q.Some? ==>
        0 <= q.value.row < p.size && 0 <= q.value.col < p.size && p.grid[q.value.row][q.value.col].Some? &&
        match d
        case Across => q.value.row == row && q.value.col < col && forall k :: q.value.col < k < col ==> p.grid[row][k].None?
        case Down => q.value.col == col && q.value.row < row && forall k :: q.value.row < k < row ==> p.grid[k][col].None?) &&
      (q.None? ==>
        MoveTo(s, q) == s &&
        match d
        case Across => forall k :: 0 <= k < col ==> p.grid[row][k].None?
        case Down => forall k :: 0 <= k < row ==> p.grid[k][col].None?)
  {
  }
}
