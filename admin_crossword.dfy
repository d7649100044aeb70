/** The crossword builder of `AdminCrosswordPage.tsx`: editing the 5×5 grid,
    finding the entries in it, numbering them and checking the draft before it
    is saved. A grid cell is `None` when black and `Some(text)` otherwise, the
    empty string being an unfilled cell. */
module AdminCrossword {
  import opened Wrappers
  import opened Text
  import opened Puzzle

  const Size: nat := CrosswordSize

  // ---- Editing ----

  /** `createEmptyGrid`. */
  function EmptyGrid(): (g: Grid)
    ensures IsSquare(g, Size)
    ensures forall r, c :: 0 <= r < Size && 0 <= c < Size ==> g[r][c] == Some("")
  {
    seq(Size, _ => seq(Size, _ => Some("")))
  }

  predicate InGrid(g: Grid, r: int, c: int) {
    0 <= r < |g| && 0 <= c < |g[r]|
  }

  /** `toggleBlack`: the cell flips between black and empty. */
  function ToggleBlack(g: Grid, r: int, c: int): Grid
    requires InGrid(g, r, c)
  {
    g[r := g[r][c := if g[r][c].None? then Some("") else None]]
  }

  /** Grids of the same shape that agree everywhere except perhaps at (r, c). */
  predicate SameElsewhere(g: Grid, h: Grid, r: int, c: int) {
    |g| == |h| && (forall i :: 0 <= i < |g| ==> |g[i]| == |h[i]|) &&
    forall i, j :: 0 <= i < |g| && 0 <= j < |g[i]| && (i != r || j != c) ==> g[i][j] == h[i][j]
  }

  lemma ToggleBlackEffect(g: Grid, r: int, c: int)
    requires InGrid(g, r, c)
    ensures SameElsewhere(g, ToggleBlack(g, r, c), r, c)
    ensures ToggleBlack(g, r, c)[r][c].None? <==> g[r][c].Some?
    ensures ToggleBlack(g, r, c)[r][c].Some? ==> ToggleBlack(g, r, c)[r][c] == Some("")
  {
  }

  /** Toggling twice restores an empty or black cell, and with it the grid. */
  lemma ToggleTwice(g: Grid, r: int, c: int)
    requires InGrid(g, r, c) && (g[r][c].None? || g[r][c] == Some(""))
    ensures ToggleBlack(ToggleBlack(g, r, c), r, c) == g
  {
    var h := ToggleBlack(ToggleBlack(g, r, c), r, c);
    assert h[r] == g[r];
  }

  /** `setCell`: nothing on a black cell, else the first character upper-cased. */
  function SetCell(g: Grid, r: int, c: int, value: string): Grid
    requires InGrid(g, r, c)
  {
    if g[r][c].None? then g else g[r := g[r][c := Some(FirstChar(Upper(value)))]]
  }

  lemma SetCellEffect(g: Grid, r: int, c: int, value: string)
    requires InGrid(g, r, c)
    ensures SameElsewhere(g, SetCell(g, r, c, value), r, c)
    ensures g[r][c].None? ==> SetCell(g, r, c, value) == g
    ensures g[r][c].Some? ==> SetCell(g, r, c, value)[r][c] == Some(FirstChar(Upper(value)))
    ensures SetCell(g, r, c, value)[r][c].Some? ==> |SetCell(g, r, c, value)[r][c].value| <= 1
  {
  }

  // ---- Runs of cells along a line ----

  /** Column `c`, top to bottom. */
  function Column(g: Grid, c: int): (line: seq<Option<string>>)
    requires IsSquare(g, Size) && 0 <= c < Size
    ensures |line| == Size && forall r :: 0 <= r < Size ==> line[r] == g[r][c]
  {
    seq(Size, r requires 0 <= r < Size => g[r][c])
  }

  /** An entry starts at `i`: a letter cell with a black cell or the edge before
      it and a letter cell after it. */
  predicate OpensRun(line: seq<Option<string>>, i: int) {
    0 <= i < |line| && line[i].Some? && (i == 0 || line[i - 1].None?) && i + 1 < |line| && line[i + 1].Some?
  }

  /** Where the run of letter cells from `i` stops: the next black cell or the edge. */
  function RunEnd(line: seq<Option<string>>, i: int): (e: int)
    requires 0 <= i <= |line|
    ensures i <= e <= |line|
    ensures forall k :: i <= k < e ==> line[k].Some?
    ensures e == |line| || line[e].None?
    decreases |line| - i
  {
    if i == |line| || line[i].None? then i else RunEnd(line, i + 1)
  }

  /** `grid[r][c] || '?'`. */
  function CellText(cell: Option<string>): (t: string)
    ensures t != []
  {
    if cell.Some? && cell.value != "" then cell.value else "?"
  }

  /** The text of cells `i` to `e - 1`, in order. */
  function RunText(line: seq<Option<string>>, i: int, e: int): (t: string)
    requires 0 <= i <= e <= |line|
    ensures |t| >= e - i
    decreases e - i
  {
    if e == i then "" else RunText(line, i, e - 1) + CellText(line[e - 1])
  }

  /** The word of the entry starting at `i`. */
  function Word(line: seq<Option<string>>, i: int): string
    requires 0 <= i <= |line|
  {
    RunText(line, i, RunEnd(line, i))
  }

  /** The inner `for` loop that spells out an entry. */
  method ReadRun(line: seq<Option<string>>, i: int) returns (word: string)
    requires 0 <= i <= |line|
    ensures word == Word(line, i)
  {
    var k := i;
    word := "";
    while k < |line| && line[k].Some?
      invariant i <= k <= RunEnd(line, i)
      invariant word == RunText(line, i, k)
      decreases |line| - k
    {
      word := word + CellText(line[k]);
      k := k + 1;
    }
  }

  /** An entry has at least two cells, so the source's `word.length >= 2` test
      always passes. */
  lemma EntryWordsSpanTwo(line: seq<Option<string>>, i: int)
    requires OpensRun(line, i)
    ensures RunEnd(line, i) >= i + 2
    ensures |Word(line, i)| >= 2
  {
    assert RunEnd(line, i) != i && RunEnd(line, i) != i + 1;
  }

  // ---- Entry detection ----

  datatype Entry = Entry(row: int, col: int, word: string)

  predicate InSquare(r: int, c: int) {
    0 <= r < Size && 0 <= c < Size
  }

  /** The start test of the detection loop: a letter cell, black or the edge
      before it, a letter cell after it. */
  predicate StartsAt(g: Grid, d: Direction, r: int, c: int)
    requires IsSquare(g, Size) && InSquare(r, c)
  {
    match d
    case Across => OpensRun(g[r], c)
    case Down => g[r][c].Some? && (r == 0 || g[r - 1][c].None?) && r + 1 < Size && g[r + 1][c].Some?
  }

  /** The down test is the across test on the column. */
  lemma DownStartOpensColumn(g: Grid, r: int, c: int)
    requires IsSquare(g, Size) && InSquare(r, c)
    ensures StartsAt(g, Down, r, c) <==> OpensRun(Column(g, c), r)
  {
  }

  /** The entry's word, read along its row or its column. */
  function EntryAt(g: Grid, d: Direction, r: int, c: int): Entry
    requires IsSquare(g, Size) && InSquare(r, c)
  {
    match d
    case Across => Entry(r, c, Word(g[r], c))
    case Down => Entry(r, c, Word(Column(g, c), r))
  }

  /** Row-major order of cells. */
  predicate Before(r1: int, c1: int, r2: int, c2: int) {
    r1 < r2 || (r1 == r2 && c1 < c2)
  }

  /** A loop position: cell (r, c) is next, `(r, Size)` being the end of row `r`
      and `(Size, 0)` the end of the grid. */
  predicate Position(r: int, c: int) {
    0 <= r <= Size && 0 <= c <= Size && (r == Size ==> c == 0)
  }

  /** The entries in direction `d` that start before position (r, c). */
  function Detected(g: Grid, d: Direction, r: int, c: int): seq<Entry>
    requires IsSquare(g, Size) && Position(r, c)
    decreases r, c
  {
    if c == 0 then (if r == 0 then [] else Detected(g, d, r - 1, Size))
    else
      var rest := Detected(g, d, r, c - 1);
      if StartsAt(g, d, r, c - 1) then rest + [EntryAt(g, d, r, c - 1)] else rest
  }

  /** The entries of the whole grid. */
  function Entries(g: Grid, d: Direction): seq<Entry>
    requires IsSquare(g, Size)
  {
    Detected(g, d, Size, 0)
  }

  /** The body of the detection loops for cell (r, c): the across and the
      down start tests, each adding the word it reads. */
  method ScanCell(g: Grid, r: int, c: int, across0: seq<Entry>, down0: seq<Entry>)
    returns (across: seq<Entry>, down: seq<Entry>)
    requires IsSquare(g, Size) && InSquare(r, c)
    requires across0 == Detected(g, Across, r, c) && down0 == Detected(g, Down, r, c)
    ensures across == Detected(g, Across, r, c + 1) && down == Detected(g, Down, r, c + 1)
  {
    across, down := across0, down0;
    if g[r][c].Some? {
      var leftNull := c == 0 || g[r][c - 1].None?;
      var rightExists := c + 1 < Size && g[r][c + 1].Some?;
      if leftNull && rightExists {
        var word := ReadRun(g[r], c);
        EntryWordsSpanTwo(g[r], c);
        if |word| >= 2 {
          across := across + [Entry(r, c, word)];
        }
      }
      var aboveNull := r == 0 || g[r - 1][c].None?;
      var belowExists := r + 1 < Size && g[r + 1][c].Some?;
      if aboveNull && belowExists {
        var word := ReadRun(Column(g, c), r);
        EntryWordsSpanTwo(Column(g, c), r);
        if |word| >= 2 {
          down := down + [Entry(r, c, word)];
        }
      }
    }
  }

  /** The first half of `detectWords`: both lists of entries. */
  method DetectEntries(g: Grid) returns (across: seq<Entry>, down: seq<Entry>)
    requires IsSquare(g, Size)
    ensures across == Entries(g, Across) && down == Entries(g, Down)
  {
    across, down := [], [];
    var r := 0;
    while r < Size
      invariant 0 <= r <= Size
      invariant across == Detected(g, Across, r, 0) && down == Detected(g, Down, r, 0)
    {
      var c := 0;
      while c < Size
        invariant 0 <= c <= Size
        invariant across == Detected(g, Across, r, c) && down == Detected(g, Down, r, c)
      {
        across, down := ScanCell(g, r, c, across, down);
        c := c + 1;
      }
      r := r + 1;
    }
  }

  /** `list.some(a => a.row === r && a.col === c)`. */
  predicate HasEntryAt(es: seq<Entry>, r: int, c: int) {
    exists i :: 0 <= i < |es| && es[i].row == r && es[i].col == c
  }

  /** Every entry before a position starts at its own cell, before that position. */
  lemma {:induction false} DetectedSound(g: Grid, d: Direction, r: int, c: int)
    requires IsSquare(g, Size) && Position(r, c)
    ensures forall e :: e in Detected(g, d, r, c) ==>
      InSquare(e.row, e.col) && Before(e.row, e.col, r, c) &&
      StartsAt(g, d, e.row, e.col) && e == EntryAt(g, d, e.row, e.col)
    decreases r, c
  {
    if c == 0 {
      if r > 0 {
        DetectedSound(g, d, r - 1, Size);
      }
    } else {
      DetectedSound(g, d, r, c - 1);
    }
  }

  /** Every start before a position is detected. */
  lemma {:induction false} DetectedComplete(g: Grid, d: Direction, r: int, c: int)
    requires IsSquare(g, Size) && Position(r, c)
    ensures forall i, j :: InSquare(i, j) && Before(i, j, r, c) && StartsAt(g, d, i, j) ==>
      EntryAt(g, d, i, j) in Detected(g, d, r, c)
    decreases r, c
  {
    if c == 0 {
      if r > 0 {
        DetectedComplete(g, d, r - 1, Size);
      }
    } else {
      DetectedComplete(g, d, r, c - 1);
    }
  }

  /** The entries come in row-major order of their cells. */
  lemma {:induction false} DetectedOrdered(g: Grid, d: Direction, r: int, c: int)
    requires IsSquare(g, Size) && Position(r, c)
    ensures forall a, b :: 0 <= a < b < |Detected(g, d, r, c)| ==>
      Before(Detected(g, d, r, c)[a].row, Detected(g, d, r, c)[a].col, Detected(g, d, r, c)[b].row, Detected(g, d, r, c)[b].col)
    decreases r, c
  {
    if c == 0 {
      if r > 0 {
        DetectedOrdered(g, d, r - 1, Size);
      }
    } else {
      DetectedOrdered(g, d, r, c - 1);
      var rest := Detected(g, d, r, c - 1);
      if StartsAt(g, d, r, c - 1) {
        DetectedSound(g, d, r, c - 1);
        var all := rest + [EntryAt(g, d, r, c - 1)];
        forall a, b | 0 <= a < b < |all| ensures Before(all[a].row, all[a].col, all[b].row, all[b].col) {
          assert all[a] in rest;
          if b < |rest| { assert all[b] == rest[b]; }
        }
      }
    }
  }

  /** A cell has a detected entry exactly when an entry starts there. */
  lemma HasEntryAtIff(g: Grid, d: Direction, r: int, c: int)
    requires IsSquare(g, Size) && InSquare(r, c)
    ensures HasEntryAt(Entries(g, d), r, c) <==> StartsAt(g, d, r, c)
  {
    var es := Entries(g, d);
    DetectedSound(g, d, Size, 0);
    DetectedComplete(g, d, Size, 0);
    if StartsAt(g, d, r, c) {
      var e := EntryAt(g, d, r, c);
      assert e in es;
      var i :| 0 <= i < |es| && es[i] == e;
      assert es[i].row == r && es[i].col == c;
    }
    if HasEntryAt(es, r, c) {
      var i :| 0 <= i < |es| && es[i].row == r && es[i].col == c;
      assert es[i] in es;
    }
  }

  // ---- Numbering ----

  /** A cell that starts an entry in either direction. */
  predicate StartsAny(g: Grid, r: int, c: int)
    requires IsSquare(g, Size) && InSquare(r, c)
  {
    StartsAt(g, Across, r, c) || StartsAt(g, Down, r, c)
  }

  /** How many cells before position (r, c) start an entry. */
  function StartCount(g: Grid, r: int, c: int): nat
    requires IsSquare(g, Size) && Position(r, c)
    decreases r, c
  {
    if c == 0 then (if r == 0 then 0 else StartCount(g, r - 1, Size))
    else StartCount(g, r, c - 1) + if StartsAny(g, r, c - 1) then 1 else 0
  }

  /** `numberMap` once the cells before position (r, c) have been visited. */
  function Numbering(g: Grid, r: int, c: int): map<Coord, int>
    requires IsSquare(g, Size) && Position(r, c)
    decreases r, c
  {
    if c == 0 then (if r == 0 then map[] else Numbering(g, r - 1, Size))
    else
      var m := Numbering(g, r, c - 1);
      if StartsAny(g, r, c - 1) then m[Coord(r, c - 1) := StartCount(g, r, c - 1) + 1] else m
  }

  function Numbers(g: Grid): map<Coord, int>
    requires IsSquare(g, Size)
  {
    Numbering(g, Size, 0)
  }

  /** Visiting cell (r, c) advances the count and the map by that cell alone. */
  lemma NumberStep(g: Grid, r: int, c: int)
    requires IsSquare(g, Size) && InSquare(r, c)
    ensures StartCount(g, r, c + 1) == StartCount(g, r, c) + if StartsAny(g, r, c) then 1 else 0
    ensures Numbering(g, r, c + 1) ==
      if StartsAny(g, r, c) then Numbering(g, r, c)[Coord(r, c) := StartCount(g, r, c) + 1] else Numbering(g, r, c)
  {
  }

  /** The numbering loop of `detectWords`, with its running counter `num`. */
  method NumberCells(g: Grid, across: seq<Entry>, down: seq<Entry>) returns (numberMap: map<Coord, int>)
    requires IsSquare(g, Size)
    requires across == Entries(g, Across) && down == Entries(g, Down)
    ensures numberMap == Numbers(g)
  {
    numberMap := map[];
    var num := 1;
    var r := 0;
    while r < Size
      invariant 0 <= r <= Size
      invariant num == StartCount(g, r, 0) + 1 && numberMap == Numbering(g, r, 0)
    {
      var c := 0;
      while c < Size
        invariant 0 <= c <= Size
        invariant num == StartCount(g, r, c) + 1 && numberMap == Numbering(g, r, c)
      {
        HasEntryAtIff(g, Across, r, c);
        HasEntryAtIff(g, Down, r, c);
        NumberStep(g, r, c);
        var isAcrossStart := HasEntryAt(across, r, c);
        var isDownStart := HasEntryAt(down, r, c);
        if isAcrossStart || isDownStart {
          numberMap := numberMap[Coord(r, c) := num];
          num := num + 1;
        }
        c := c + 1;
      }
      r := r + 1;
    }
  }

  /** Before a position, exactly the starting cells are numbered, each with one
      more than the number of starting cells before it. */
  lemma {:induction false} NumberingExactly(g: Grid, r: int, c: int)
    requires IsSquare(g, Size) && Position(r, c)
    ensures forall i, j :: InSquare(i, j) ==>
      (Coord(i, j) in Numbering(g, r, c) <==> Before(i, j, r, c) && StartsAny(g, i, j))
    ensures forall i, j :: InSquare(i, j) && Before(i, j, r, c) && StartsAny(g, i, j) ==>
      Numbering(g, r, c)[Coord(i, j)] == StartCount(g, i, j) + 1
    ensures forall p :: p in Numbering(g, r, c) ==> InSquare(p.row, p.col)
    decreases r, c
  {
    if c == 0 {
      if r > 0 {
        NumberingExactly(g, r - 1, Size);
      }
    } else {
      NumberingExactly(g, r, c - 1);
    }
  }

  /** A starting cell is numbered one more than the starting cells before it. */
  lemma NumberAt(g: Grid, r: int, c: int)
    requires IsSquare(g, Size) && InSquare(r, c) && StartsAny(g, r, c)
    ensures Coord(r, c) in Numbers(g) && Numbers(g)[Coord(r, c)] == StartCount(g, r, c) + 1
  {
    NumberingExactly(g, Size, 0);
  }

  lemma {:induction false} StartCountGrows(g: Grid, r1: int, c1: int, r2: int, c2: int)
    requires IsSquare(g, Size) && Position(r1, c1) && Position(r2, c2)
    requires r1 < r2 || (r1 == r2 && c1 <= c2)
    ensures StartCount(g, r1, c1) <= StartCount(g, r2, c2)
    decreases r2, c2
  {
    if r1 == r2 && c1 == c2 {
    } else if c2 > 0 {
      StartCountGrows(g, r1, c1, r2, c2 - 1);
    } else {
      StartCountGrows(g, r1, c1, r2 - 1, Size);
    }
  }

  /** Numbers run 1, 2, 3, … in row-major order: every number is at least 1 and
      a later starting cell gets a strictly larger one. */
  lemma NumbersIncrease(g: Grid, r1: int, c1: int, r2: int, c2: int)
    requires IsSquare(g, Size) && InSquare(r1, c1) && InSquare(r2, c2) && Before(r1, c1, r2, c2)
    requires StartsAny(g, r1, c1) && StartsAny(g, r2, c2)
    ensures Coord(r1, c1) in Numbers(g) && Coord(r2, c2) in Numbers(g)
    ensures 1 <= Numbers(g)[Coord(r1, c1)] < Numbers(g)[Coord(r2, c2)]
  {
    NumberAt(g, r1, c1);
    NumberAt(g, r2, c2);
    NumberStep(g, r1, c1);
    StartCountGrows(g, r1, c1 + 1, r2, c2);
  }

  /** No number exceeds the count of starting cells, so the numbers are exactly
      1 to that count. */
  lemma NumbersBounded(g: Grid, r: int, c: int)
    requires IsSquare(g, Size) && InSquare(r, c) && StartsAny(g, r, c)
    ensures Coord(r, c) in Numbers(g)
    ensures Numbers(g)[Coord(r, c)] <= StartCount(g, Size, 0)
  {
    NumberAt(g, r, c);
    NumberStep(g, r, c);
    StartCountGrows(g, r, c + 1, Size, 0);
  }

  // ---- Clue drafts ----

  /** A clue as the builder edits it. */
  datatype ClueDraft = ClueDraft(number: int, clue: string, answer: string, row: int, col: int, direction: Direction)

  /** `drafts.find(c => c.row === r && c.col === col)`. */
  function FindAt(drafts: seq<ClueDraft>, r: int, c: int): (f: Option<ClueDraft>)
    ensures f.Some? ==> f.value in drafts && f.value.row == r && f.value.col == c
    ensures f.None? ==> forall x :: x in drafts ==> x.row != r || x.col != c
  {
    if drafts == [] then None
    else if drafts[0].row == r && drafts[0].col == c then Some(drafts[0])
    else FindAt(drafts[1..], r, c)
  }

  /** The draft for one entry: its number (`|| 0` when missing), the clue text
      of an earlier draft at the same cell (`|| ''`), and the entry's word. */
  function DraftFor(e: Entry, numbers: map<Coord, int>, existing: seq<ClueDraft>, d: Direction): ClueDraft {
    var key := Coord(e.row, e.col);
    var found := FindAt(existing, e.row, e.col);
    ClueDraft(if key in numbers then numbers[key] else 0,
              if found.Some? then found.value.clue else "",
              e.word, e.row, e.col, d)
  }

  function Drafts(es: seq<Entry>, numbers: map<Coord, int>, existing: seq<ClueDraft>, d: Direction): (r: seq<ClueDraft>)
    ensures |r| == |es| && forall i :: 0 <= i < |es| ==> r[i] == DraftFor(es[i], numbers, existing, d)
  {
    seq(|es|, i requires 0 <= i < |es| => DraftFor(es[i], numbers, existing, d))
  }

  /** `detectWords`: new drafts for both directions from the grid and the drafts
      already on the page. */
  method DetectWords(g: Grid, cluesAcross: seq<ClueDraft>, cluesDown: seq<ClueDraft>)
    returns (newAcross: seq<ClueDraft>, newDown: seq<ClueDraft>)
    requires IsSquare(g, Size)
    ensures newAcross == Drafts(Entries(g, Across), Numbers(g), cluesAcross, Across)
    ensures newDown == Drafts(Entries(g, Down), Numbers(g), cluesDown, Down)
  {
    var across, down := DetectEntries(g);
    var numberMap := NumberCells(g, across, down);
    newAcross := Drafts(across, numberMap, cluesAcross, Across);
    newDown := Drafts(down, numberMap, cluesDown, Down);
  }

  /** Each new draft sits on a starting cell, is numbered by that cell's place
      among the starting cells, carries the entry's word and keeps the text of
      the first earlier same-direction draft at that cell, or is blank. */
  lemma DraftsDescribeEntries(g: Grid, existing: seq<ClueDraft>, d: Direction, i: int)
    requires IsSquare(g, Size) && 0 <= i < |Entries(g, d)|
    ensures var e := Entries(g, d)[i];
      var x := Drafts(Entries(g, d), Numbers(g), existing, d)[i];
      InSquare(x.row, x.col) && StartsAt(g, d, x.row, x.col) && x.direction == d &&
      e == EntryAt(g, d, x.row, x.col) && x.answer == e.word &&
      x.number == StartCount(g, x.row, x.col) + 1 &&
      (FindAt(existing, x.row, x.col).Some? ==> x.clue == FindAt(existing, x.row, x.col).value.clue) &&
      (FindAt(existing, x.row, x.col).None? ==> x.clue == "")
  {
    var es := Entries(g, d);
    DetectedSound(g, d, Size, 0);
    assert es[i] in es;
    NumberAt(g, es[i].row, es[i].col);
  }

  /** A cell that starts both an across and a down entry gives both drafts the
      same number. */
  lemma SharedStartSharesNumber(g: Grid, ea: seq<ClueDraft>, ed: seq<ClueDraft>, i: int, j: int)
    requires IsSquare(g, Size) && 0 <= i < |Entries(g, Across)| && 0 <= j < |Entries(g, Down)|
    requires Entries(g, Across)[i].row == Entries(g, Down)[j].row && Entries(g, Across)[i].col == Entries(g, Down)[j].col
    ensures Drafts(Entries(g, Across), Numbers(g), ea, Across)[i].number == Drafts(Entries(g, Down), Numbers(g), ed, Down)[j].number
  {
  }

  /** `updateClue`: the draft at `idx` gets the new text; nothing else changes. */
  function UpdateClue(clues: seq<ClueDraft>, idx: int, text: string): (r: seq<ClueDraft>)
    ensures |r| == |clues|
    ensures forall i :: 0 <= i < |clues| && i != idx ==> r[i] == clues[i]
    ensures 0 <= idx < |clues| ==> r[idx] == clues[idx].(clue := text)
  {
    seq(|clues|, i requires 0 <= i < |clues| => if i == idx then clues[i].(clue := text) else clues[i])
  }

  /** The `cellNumbers` display map: every draft in turn writes its number at
      its cell, a later draft overwriting an earlier one. */
  function CellNumbers(drafts: seq<ClueDraft>): map<Coord, int> {
    if drafts == [] then map[]
    else
      var x := drafts[|drafts| - 1];
      CellNumbers(drafts[..|drafts| - 1])[Coord(x.row, x.col) := x.number]
  }

  /** When every draft carries the number `m` gives its cell, the display map
      shows exactly those cells with those numbers. */
  lemma {:induction false} CellNumbersAgree(drafts: seq<ClueDraft>, m: map<Coord, int>)
    requires forall x :: x in drafts ==> Coord(x.row, x.col) in m && m[Coord(x.row, x.col)] == x.number
    ensures forall p :: p in CellNumbers(drafts) ==> p in m && CellNumbers(drafts)[p] == m[p]
    ensures forall x :: x in drafts ==> Coord(x.row, x.col) in CellNumbers(drafts)
  {
    if drafts != [] {
      var init := drafts[..|drafts| - 1];
      assert forall x :: x in init ==> x in drafts;
      CellNumbersAgree(init, m);
      forall x | x in drafts ensures Coord(x.row, x.col) in CellNumbers(drafts) {
        if x != drafts[|drafts| - 1] {
          var i :| 0 <= i < |drafts| && drafts[i] == x;
          assert init[i] == x;
        }
      }
    }
  }

  /** Every detected draft carries its own cell's number. */
  lemma DraftNumbered(g: Grid, existing: seq<ClueDraft>, d: Direction, x: ClueDraft)
    requires IsSquare(g, Size) && x in Drafts(Entries(g, d), Numbers(g), existing, d)
    ensures Coord(x.row, x.col) in Numbers(g) && Numbers(g)[Coord(x.row, x.col)] == x.number
  {
    var ds := Drafts(Entries(g, d), Numbers(g), existing, d);
    var i :| 0 <= i < |ds| && ds[i] == x;
    DraftsDescribeEntries(g, existing, d, i);
    NumberAt(g, x.row, x.col);
  }

  /** After detection the display map shows exactly the starting cells, each
      with its own number. */
  lemma DetectedCellNumbers(g: Grid, ea: seq<ClueDraft>, ed: seq<ClueDraft>)
    requires IsSquare(g, Size)
    ensures var drafts := Drafts(Entries(g, Across), Numbers(g), ea, Across) + Drafts(Entries(g, Down), Numbers(g), ed, Down);
      forall p :: p in CellNumbers(drafts) ==> p in Numbers(g) && CellNumbers(drafts)[p] == Numbers(g)[p]
    ensures var drafts := Drafts(Entries(g, Across), Numbers(g), ea, Across) + Drafts(Entries(g, Down), Numbers(g), ed, Down);
      forall p :: p in Numbers(g) ==> p in CellNumbers(drafts)
  {
    var da := Drafts(Entries(g, Across), Numbers(g), ea, Across);
    var dd := Drafts(Entries(g, Down), Numbers(g), ed, Down);
    var m := Numbers(g);
    forall x: ClueDraft | x in da + dd ensures Coord(x.row, x.col) in m && m[Coord(x.row, x.col)] == x.number {
      if x in da {
        DraftNumbered(g, ea, Across, x);
      } else {
        DraftNumbered(g, ed, Down, x);
      }
    }
    CellNumbersAgree(da + dd, m);
    NumberingExactly(g, Size, 0);
    forall p | p in m ensures p in CellNumbers(da + dd) {
      assert InSquare(p.row, p.col) && StartsAny(g, p.row, p.col);
      var d := if StartsAt(g, Across, p.row, p.col) then Across else Down;
      HasEntryAtIff(g, d, p.row, p.col);
      var es := Entries(g, d);
      var i :| 0 <= i < |es| && es[i].row == p.row && es[i].col == p.col;
      var x := if d == Across then da[i] else dd[i];
      assert x in da + dd;
      assert Coord(x.row, x.col) == p;
    }
  }

  // ---- The sample puzzle ----

  /** A grid with no black cell. */
  predicate Full(g: Grid) {
    IsSquare(g, Size) && forall r, c :: 0 <= r < Size && 0 <= c < Size ==> g[r][c].Some?
  }

  /** In a full grid every row starts an across entry in column 0 and every
      column a down entry in row 0, and nothing else starts. */
  lemma FullStarts(g: Grid, r: int, c: int)
    requires Full(g) && InSquare(r, c)
    ensures StartsAt(g, Across, r, c) <==> c == 0
    ensures StartsAt(g, Down, r, c) <==> r == 0
  {
  }

  lemma {:induction false} FullStartCount(g: Grid, r: int, c: int)
    requires Full(g) && Position(r, c)
    ensures StartCount(g, r, c) == if r == 0 then c else Size + (r - 1) + (if c > 0 then 1 else 0)
    decreases r, c
  {
    if c == 0 {
      if r > 0 { FullStartCount(g, r - 1, Size); }
    } else {
      FullStartCount(g, r, c - 1);
      FullStarts(g, r, c - 1);
    }
  }

  /** On a full grid the first row is numbered 1 to 5 and the first column
      1, 6, 7, 8, 9. */
  lemma FullNumbers(g: Grid, i: int)
    requires Full(g) && 0 <= i < Size
    ensures Coord(0, i) in Numbers(g) && Numbers(g)[Coord(0, i)] == i + 1
    ensures Coord(i, 0) in Numbers(g) && Numbers(g)[Coord(i, 0)] == if i == 0 then 1 else Size + i
  {
    FullStarts(g, 0, i);
    FullStarts(g, i, 0);
    NumberAt(g, 0, i);
    NumberAt(g, i, 0);
    FullStartCount(g, 0, i);
    FullStartCount(g, i, 0);
  }

  const SampleGrid: Grid := [
    [Some("H"), Some("E"), Some("A"), Some("R"), Some("T")],
    [Some("E"), Some("M"), Some("B"), Some("E"), Some("R")],
    [Some("A"), Some("B"), Some("U"), Some("S"), Some("E")],
    [Some("R"), Some("E"), Some("S"), Some("I"), Some("N")],
    [Some("T"), Some("R"), Some("E"), Some("N"), Some("D")]]

  lemma SampleFull()
    ensures Full(SampleGrid)
  {
  }

  /** Detection on the sample grid yields the sample clues' cells and numbers:
      across entries at the start of every row numbered 1, 6, 7, 8, 9 and down
      entries at the top of every column numbered 1 to 5. */
  lemma SampleNumbers()
    ensures Full(SampleGrid)
    ensures forall i :: 0 <= i < Size ==> StartsAt(SampleGrid, Across, i, 0) && StartsAt(SampleGrid, Down, 0, i)
    ensures forall r, c :: InSquare(r, c) ==>
      (StartsAt(SampleGrid, Across, r, c) <==> c == 0) && (StartsAt(SampleGrid, Down, r, c) <==> r == 0)
    ensures forall i :: 0 <= i < Size ==> Coord(i, 0) in Numbers(SampleGrid) && Coord(0, i) in Numbers(SampleGrid)
    ensures Numbers(SampleGrid)[Coord(0, 0)] == 1 && Numbers(SampleGrid)[Coord(1, 0)] == 6 &&
      Numbers(SampleGrid)[Coord(2, 0)] == 7 && Numbers(SampleGrid)[Coord(3, 0)] == 8 &&
      Numbers(SampleGrid)[Coord(4, 0)] == 9
    ensures forall c :: 0 <= c < Size ==> Numbers(SampleGrid)[Coord(0, c)] == c + 1
  {
    SampleFull();
    forall r, c | InSquare(r, c)
      ensures (StartsAt(SampleGrid, Across, r, c) <==> c == 0) && (StartsAt(SampleGrid, Down, r, c) <==> r == 0)
    {
      FullStarts(SampleGrid, r, c);
    }
    forall i | 0 <= i < Size
      ensures Coord(i, 0) in Numbers(SampleGrid) && Coord(0, i) in Numbers(SampleGrid)
      ensures Numbers(SampleGrid)[Coord(0, i)] == i + 1
      ensures Numbers(SampleGrid)[Coord(i, 0)] == if i == 0 then 1 else Size + i
    {
      FullNumbers(SampleGrid, i);
    }
  }

  // ---- validate ----

  datatype Complaint = EmptyCell(row: int, col: int) | NeedsClue(number: int, direction: Direction) | NoWords

  function DirectionText(d: Direction): string {
    match d
    case Across => "across"
    case Down => "down"
  }

  /** The text `validate` returns; rows and columns are shown from 1. */
  function Message(p: Complaint): string {
    match p
    case EmptyCell(r, c) =>
      "Cell (" + IntToString(r + 1) + ", " + IntToString(c + 1) + ") is empty — fill in a letter or make it black"
    case NeedsClue(n, d) => IntToString(n) + " " + DirectionText(d) + " needs a clue"
    case NoWords => "No words detected — fill in the grid first"
  }

  /** `grid[r][c] !== null && !grid[r][c]`. */
  predicate Unfilled(cell: Option<string>) {
    cell == Some("")
  }

  /** The first unfilled cell from position (r, c) on, row-major. */
  function FirstUnfilled(g: Grid, r: int, c: int): Option<Coord>
    requires IsSquare(g, Size) && Position(r, c)
    decreases Size - r, Size - c
  {
    if r == Size then None
    else if c == Size then FirstUnfilled(g, r + 1, 0)
    else if Unfilled(g[r][c]) then Some(Coord(r, c))
    else FirstUnfilled(g, r, c + 1)
  }

  /** The first draft from index `i` on whose clue text is blank after trimming. */
  function FirstBlankClue(clues: seq<ClueDraft>, i: nat): Option<ClueDraft>
    requires i <= |clues|
    decreases |clues| - i
  {
    if i == |clues| then None
    else if Trim(clues[i].clue) == "" then Some(clues[i])
    else FirstBlankClue(clues, i + 1)
  }

  lemma {:induction false} FirstBlankClueFacts(clues: seq<ClueDraft>, i: nat)
    requires i <= |clues|
    ensures FirstBlankClue(clues, i).Some? ==>
      FirstBlankClue(clues, i).value in clues[i..] && Trim(FirstBlankClue(clues, i).value.clue) == ""
    ensures FirstBlankClue(clues, i).Some? ==>
      exists k :: i <= k < |clues| && clues[k] == FirstBlankClue(clues, i).value &&
        forall j :: i <= j < k ==> Trim(clues[j].clue) != ""
    ensures FirstBlankClue(clues, i).None? <==> forall j :: i <= j < |clues| ==> Trim(clues[j].clue) != ""
    decreases |clues| - i
  {
    if i < |clues| && Trim(clues[i].clue) == "" {
      assert clues[i] == FirstBlankClue(clues, i).value;
    }
    if i < |clues| && Trim(clues[i].clue) != "" {
      FirstBlankClueFacts(clues, i + 1);
    }
  }

  function ValidateDraft(g: Grid, across: seq<ClueDraft>, down: seq<ClueDraft>): Option<Complaint>
    requires IsSquare(g, Size)
  {
    match FirstUnfilled(g, 0, 0)
    case Some(p) => Some(EmptyCell(p.row, p.col))
    case None =>
      match FirstBlankClue(across + down, 0)
      case Some(x) => Some(NeedsClue(x.number, x.direction))
      case None => if across == [] && down == [] then Some(NoWords) else None
  }

  /** The nested cell loop of `validate`: the first letter cell left empty. */
  method FindEmptyCell(g: Grid) returns (p: Option<Coord>)
    requires IsSquare(g, Size)
    ensures p == FirstUnfilled(g, 0, 0)
  {
    var r := 0;
    while r < Size
      invariant 0 <= r <= Size
      invariant FirstUnfilled(g, 0, 0) == FirstUnfilled(g, r, 0)
    {
      var c := 0;
      while c < Size
        invariant 0 <= c <= Size
        invariant FirstUnfilled(g, 0, 0) == FirstUnfilled(g, r, c)
      {
        if g[r][c].Some? && g[r][c].value == "" {
          return Some(Coord(r, c));
        }
        c := c + 1;
      }
      r := r + 1;
    }
    return None;
  }

  /** `validate`, loops and early returns as written. */
  method Validate(g: Grid, cluesAcross: seq<ClueDraft>, cluesDown: seq<ClueDraft>) returns (err: Option<Complaint>)
    requires IsSquare(g, Size)
    ensures err == ValidateDraft(g, cluesAcross, cluesDown)
  {
    var empty := FindEmptyCell(g);
    if empty.Some? {
      return Some(EmptyCell(empty.value.row, empty.value.col));
    }
    var all := cluesAcross + cluesDown;
    var i := 0;
    while i < |all|
      invariant 0 <= i <= |all|
      invariant FirstBlankClue(all, 0) == FirstBlankClue(all, i)
    {
      if Trim(all[i].clue) == "" {
        return Some(NeedsClue(all[i].number, all[i].direction));
      }
      i := i + 1;
    }
    if |cluesAcross| == 0 && |cluesDown| == 0 {
      return Some(NoWords);
    }
    return None;
  }

  lemma {:induction false} FirstUnfilledIsFirst(g: Grid, r: int, c: int)
    requires IsSquare(g, Size) && Position(r, c)
    ensures FirstUnfilled(g, r, c).Some? ==>
      var p := FirstUnfilled(g, r, c).value;
      InSquare(p.row, p.col) && !Before(p.row, p.col, r, c) && Unfilled(g[p.row][p.col]) &&
      forall i, j :: InSquare(i, j) && !Before(i, j, r, c) && Before(i, j, p.row, p.col) ==> !Unfilled(g[i][j])
    ensures FirstUnfilled(g, r, c).None? <==>
      forall i, j :: InSquare(i, j) && !Before(i, j, r, c) ==> !Unfilled(g[i][j])
    decreases Size - r, Size - c
  {
    if r < Size {
      if c == Size {
        FirstUnfilledIsFirst(g, r + 1, 0);
      } else if !Unfilled(g[r][c]) {
        FirstUnfilledIsFirst(g, r, c + 1);
      }
    }
  }

  /** The draft passes exactly when every letter cell is filled, every clue has
      text and there is at least one clue; an empty cell is reported first (the
      first one in row-major order), a blank clue second (the first one of the
      across clues followed by the down clues). */
  lemma ValidateOrder(g: Grid, across: seq<ClueDraft>, down: seq<ClueDraft>)
    requires IsSquare(g, Size)
    ensures ValidateDraft(g, across, down).None? <==>
      (forall r, c :: InSquare(r, c) ==> !Unfilled(g[r][c])) &&
      (forall x :: x in across + down ==> Trim(x.clue) != "") && (across != [] || down != [])
    ensures ValidateDraft(g, across, down).Some? && ValidateDraft(g, across, down).value.EmptyCell? ==>
      var p := ValidateDraft(g, across, down).value;
      InSquare(p.row, p.col) && Unfilled(g[p.row][p.col]) &&
      forall i, j :: InSquare(i, j) && Before(i, j, p.row, p.col) ==> !Unfilled(g[i][j])
    ensures ValidateDraft(g, across, down).Some? && ValidateDraft(g, across, down).value.NeedsClue? ==>
      (forall r, c :: InSquare(r, c) ==> !Unfilled(g[r][c])) &&
      exists k :: 0 <= k < |across + down| && Trim((across + down)[k].clue) == "" &&
        ValidateDraft(g, across, down).value == NeedsClue((across + down)[k].number, (across + down)[k].direction) &&
        forall j :: 0 <= j < k ==> Trim((across + down)[j].clue) != ""
  {
    FirstUnfilledIsFirst(g, 0, 0);
    FirstBlankClueFacts(across + down, 0);
    var all := across + down;
    if (forall x :: x in all ==> Trim(x.clue) != "") {
      forall j | 0 <= j < |all| ensures Trim(all[j].clue) != "" {
        assert all[j] in all;
      }
    }
  }
}
