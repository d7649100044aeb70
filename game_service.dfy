/** The per-player session engine of `gameService.ts`. A `game_sessions` row
    is a `SessionRow` object whose fields are the row's columns; each exported
    service function is a method that reads the row, decides, and writes fields.
    What each method does to the row is fixed by a step function on `Session`
    values (`Started`, `GuessStep`, `SubmitStep`, `GiveUpStep`, `AfterComplete`),
    and the lemmas below state what these steps promise. */
module GameService {
  import opened Wrappers
  import opened Text
  import opened StringOrder
  import opened Puzzle
  import opened Json

  /** The `connections_state` JSON column. */
  datatype ConnectionsState = ConnectionsState(
    solvedGroups: seq<Group>, mistakes: int, failed: bool, completed: bool, wordOrder: Option<seq<string>>)

  /** A submitted grid as the request body holds it: the elements of the `grid`
      array, each of any JSON type. */
  type PlayerGrid = seq<Json>

  /** The `crossword_state` JSON column, with the keys the server writes. */
  datatype CrosswordState = CrosswordState(completed: bool, failed: Option<bool>, currentGrid: Option<PlayerGrid>)

  /** The value of a `game_sessions` row. Times are milliseconds. */
  datatype Session = Session(
    startedAt: Option<int>,
    completedAt: Option<int>,
    firstPuzzle: Option<PuzzleType>,
    connections: ConnectionsState,
    crossword: CrosswordState,
    connectionsCompleted: bool,
    crosswordCompleted: bool,
    totalTimeMs: Option<int>,
    failed: bool)

  /** A freshly inserted row: nothing started, nothing solved. */
  const InitialSession: Session := Session(
    None, None, None, ConnectionsState([], 0, false, false, None), CrosswordState(false, None, None),
    false, false, None, false)

  // ---- Timer stamps ----

  /** `EXTRACT(EPOCH FROM (now - started_at)) * 1000`, NULL when `started_at` is NULL. */
  function Elapsed(startedAt: Option<int>, now: int): (r: Option<int>)
    ensures r.Some? <==> startedAt.Some?
    ensures r.Some? ==> startedAt.value + r.value == now
  {
    if startedAt.Some? then Some(now - startedAt.value) else None
  }

  /** The unguarded stamp of the two failure paths: `completed_at = now` and the elapsed time. */
  function Stamp(s: Session, now: int): Session {
    s.(completedAt := Some(now), totalTimeMs := Elapsed(s.startedAt, now))
  }

  /** The row after `completeGame`, whose UPDATE only applies `WHERE completed_at IS NULL`. */
  function AfterComplete(s: Session, now: int): Session {
    if s.completedAt.None? then Stamp(s, now) else s
  }

  lemma CompleteStampsOnce(s: Session, now: int, later: int)
    ensures AfterComplete(s, now).completedAt == (if s.completedAt.None? then Some(now) else s.completedAt)
    ensures AfterComplete(AfterComplete(s, now), later) == AfterComplete(s, now)
  {
  }

  // ---- startPuzzle ----

  /** `startPuzzle`: start the clock and record the first puzzle, unless already started. */
  function Started(s: Session, kind: PuzzleType, now: int): Session {
    if s.startedAt.None? then s.(startedAt := Some(now), firstPuzzle := Some(kind)) else s
  }

  /** Starting is idempotent: whatever is started second changes nothing. */
  lemma StartIdempotent(s: Session, k1: PuzzleType, t1: int, k2: PuzzleType, t2: int)
    ensures Started(Started(s, k1, t1), k2, t2) == Started(s, k1, t1)
    ensures Started(s, k1, t1).startedAt == (if s.startedAt.None? then Some(t1) else s.startedAt)
    ensures s.startedAt.Some? ==> Started(s, k1, t1) == s
  {
  }

  // ---- The grouping-guess evaluator ----

  /** `words.map(w => w.toUpperCase())`. */
  function UpperAll(ws: seq<string>): (r: seq<string>)
    ensures |r| == |ws| && forall i :: 0 <= i < |ws| ==> r[i] == Upper(ws[i])
  {
    seq(|ws|, i requires 0 <= i < |ws| => Upper(ws[i]))
  }

  /** `words.map(w => w.toUpperCase()).sort()`. */
  function Normalized(ws: seq<string>): seq<string> {
    Sort(UpperAll(ws))
  }

  /** `new Set(solved_groups.map(g => g.label))`. */
  function Titles(groups: seq<Group>): (r: set<string>)
    ensures forall t :: t in r <==> exists g :: g in groups && g.title == t
  {
    set g | g in groups :: g.title
  }

  /** The same words, each as often, up to case and order. */
  predicate SameWords(a: seq<string>, b: seq<string>) {
    multiset(UpperAll(a)) == multiset(UpperAll(b))
  }

  /** The predicate given to `groups.find`: an unsolved group whose words match. */
  predicate Matches(g: Group, solved: set<string>, guess: seq<string>) {
    g.title !in solved && SameWords(g.words, guess)
  }

  /** The source compares the upper-cased, sorted word lists by their JSON text;
      two sorted lists are equal exactly when they hold the same words. */
  lemma MatchesIsSortedComparison(g: Group, solved: set<string>, guess: seq<string>)
    ensures Matches(g, solved, guess) <==>
      g.title !in solved && Normalized(g.words) == Normalized(guess)
  {
    SortEqualIff(UpperAll(g.words), UpperAll(guess));
  }

  /** `groups.find(...)`, as the index of the first matching group. */
  function FindMatch(groups: seq<Group>, solved: set<string>, guess: seq<string>): (r: Option<nat>)
    ensures r.Some? ==> r.value < |groups| && Matches(groups[r.value], solved, guess)
    ensures r.Some? ==> forall k :: 0 <= k < r.value ==> !Matches(groups[k], solved, guess)
    ensures r.None? ==> forall k :: 0 <= k < |groups| ==> !Matches(groups[k], solved, guess)
  {
    FindFrom(groups, solved, guess, 0)
  }

  function FindFrom(groups: seq<Group>, solved: set<string>, guess: seq<string>, from: nat): (r: Option<nat>)
    requires from <= |groups|
    ensures r.Some? ==> from <= r.value < |groups| && Matches(groups[r.value], solved, guess)
    ensures r.Some? ==> forall k :: from <= k < r.value ==> !Matches(groups[k], solved, guess)
    ensures r.None? ==> forall k :: from <= k < |groups| ==> !Matches(groups[k], solved, guess)
    decreases |groups| - from
  {
    if from == |groups| then None
    else if Matches(groups[from], solved, guess) then Some(from)
    else FindFrom(groups, solved, guess, from + 1)
  }

  /** The evaluator ignores the order and the case of the guessed words. */
  lemma FindMatchIgnoresOrderAndCase(groups: seq<Group>, solved: set<string>, a: seq<string>, b: seq<string>)
    requires SameWords(a, b)
    ensures FindMatch(groups, solved, a) == FindMatch(groups, solved, b)
  {
    var ra, rb := FindMatch(groups, solved, a), FindMatch(groups, solved, b);
    forall k | 0 <= k < |groups| ensures Matches(groups[k], solved, a) == Matches(groups[k], solved, b) {}
    if ra.Some? && rb.Some? {
      assert !(ra.value < rb.value) && !(rb.value < ra.value);
    }
  }

  // ---- processConnectionsGuess ----

  datatype GuessResponse = GuessResponse(correct: bool, group: Option<Group>, mistakes: int, failed: bool)

  datatype GuessOutcome = GuessOutcome(session: Session, response: GuessResponse)

  predicate ConnectionsOver(c: ConnectionsState) {
    c.failed || c.completed
  }

  /** One grouping guess against the row `s`, as `processConnectionsGuess` makes it. */
  function GuessStep(s: Session, groups: seq<Group>, guess: seq<string>, now: int): GuessOutcome {
    var st := s.connections;
    if ConnectionsOver(st) then GuessOutcome(s, GuessResponse(false, None, st.mistakes, st.failed))
    else
      match FindMatch(groups, Titles(st.solvedGroups), guess)
      case Some(i) =>
        var solved := st.solvedGroups + [groups[i]];
        var completed := |solved| == |groups|;
        var s1 := s.(connections := st.(solvedGroups := solved, completed := completed),
                     connectionsCompleted := completed || s.connectionsCompleted);
        var s2 := if completed && s.crosswordCompleted then AfterComplete(s1, now) else s1;
        GuessOutcome(s2, GuessResponse(true, Some(groups[i]), st.mistakes, false))
      case None =>
        var mistakes := st.mistakes + 1;
        var failed := mistakes >= MaxConnectionsMistakes;
        var s1 := s.(connections := st.(mistakes := mistakes, failed := failed));
        var s2 := if failed then Stamp(s1.(failed := true), now) else s1;
        GuessOutcome(s2, GuessResponse(false, None, mistakes, failed))
  }

  /** A finished Connections puzzle ignores guesses and reports its state. */
  lemma GuessWhenOver(s: Session, groups: seq<Group>, guess: seq<string>, now: int)
    requires ConnectionsOver(s.connections)
    ensures GuessStep(s, groups, guess, now) ==
      GuessOutcome(s, GuessResponse(false, None, s.connections.mistakes, s.connections.failed))
  {
  }

  /** A guess is correct exactly when the puzzle is still open and some unsolved
      group holds the same words up to case and order. */
  lemma GuessCorrectIff(s: Session, groups: seq<Group>, guess: seq<string>, now: int)
    ensures GuessStep(s, groups, guess, now).response.correct <==>
      !ConnectionsOver(s.connections) &&
      exists i :: 0 <= i < |groups| && groups[i].title !in Titles(s.connections.solvedGroups) &&
        SameWords(groups[i].words, guess)
  {
    var solved := Titles(s.connections.solvedGroups);
    if !ConnectionsOver(s.connections) && FindMatch(groups, solved, guess).Some? {
      assert Matches(groups[FindMatch(groups, solved, guess).value], solved, guess);
    }
  }

  /** Permuting the words of a guess or changing their case changes nothing. */
  lemma GuessIgnoresOrderAndCase(s: Session, groups: seq<Group>, a: seq<string>, b: seq<string>, now: int)
    requires SameWords(a, b)
    ensures GuessStep(s, groups, a, now) == GuessStep(s, groups, b, now)
  {
    FindMatchIgnoresOrderAndCase(groups, Titles(s.connections.solvedGroups), a, b);
  }

  /** A correct guess appends exactly the matched group, keeps the mistakes,
      and completes the puzzle exactly when every group is solved. When that
      finishes the game, the crossword being solved already, `completeGame`
      stops the clock, once; the crossword fields are left alone. */
  lemma GuessMatchEffect(s: Session, groups: seq<Group>, guess: seq<string>, now: int)
    requires GuessStep(s, groups, guess, now).response.correct
    ensures var o := GuessStep(s, groups, guess, now);
      var stops := o.session.connections.completed && s.crosswordCompleted && s.completedAt.None?;
      o.response.group.Some? && o.response.group.value in groups &&
      o.session.connections.solvedGroups == s.connections.solvedGroups + [o.response.group.value] &&
      o.session.connections.mistakes == s.connections.mistakes == o.response.mistakes &&
      !o.session.connections.failed && !o.response.failed &&
      (o.session.connections.completed <==> |s.connections.solvedGroups| + 1 == |groups|) &&
      (o.session.connectionsCompleted <==> o.session.connections.completed || s.connectionsCompleted) &&
      o.session.startedAt == s.startedAt && o.session.failed == s.failed &&
      o.session.firstPuzzle == s.firstPuzzle &&
      o.session.crossword == s.crossword && o.session.crosswordCompleted == s.crosswordCompleted &&
      o.session.completedAt == (if stops then Some(now) else s.completedAt) &&
      o.session.totalTimeMs == (if stops then Elapsed(s.startedAt, now) else s.totalTimeMs)
  {
  }

  /** A wrong guess costs exactly one mistake; the fourth fails the puzzle and the
      session and stamps the clock, whether or not a stamp is already there. */
  lemma GuessMissEffect(s: Session, groups: seq<Group>, guess: seq<string>, now: int)
    requires !ConnectionsOver(s.connections)
    requires !GuessStep(s, groups, guess, now).response.correct
    ensures var o := GuessStep(s, groups, guess, now);
      var m := s.connections.mistakes + 1;
      o.session.connections == s.connections.(mistakes := m, failed := m >= MaxConnectionsMistakes) &&
      o.response == GuessResponse(false, None, m, m >= MaxConnectionsMistakes) &&
      (m >= MaxConnectionsMistakes ==>
        o.session.failed && o.session.completedAt == Some(now) &&
        o.session.totalTimeMs == Elapsed(s.startedAt, now)) &&
      (m < MaxConnectionsMistakes ==> o.session == s.(connections := o.session.connections))
  {
  }

  /** The Connections sub-state the engine keeps: at most four mistakes, and
      failed exactly at four. */
  predicate MistakesSane(c: ConnectionsState) {
    0 <= c.mistakes <= MaxConnectionsMistakes && (c.failed <==> c.mistakes == MaxConnectionsMistakes)
  }

  /** Guesses never lower the mistake count, never take back a solved group,
      and keep the mistake bound. */
  lemma GuessMonotone(s: Session, groups: seq<Group>, guess: seq<string>, now: int)
    requires MistakesSane(s.connections)
    ensures var c := GuessStep(s, groups, guess, now).session.connections;
      MistakesSane(c) && c.mistakes >= s.connections.mistakes &&
      s.connections.solvedGroups <= c.solvedGroups
  {
  }

  /** Once a group is solved, guessing its words again is a mistake, provided no
      other group holds the same words. */
  lemma ResubmitSolvedIsMiss(s: Session, groups: seq<Group>, guess: seq<string>, now: int, later: int)
    requires forall j, k :: 0 <= j < k < |groups| ==> !SameWords(groups[j].words, groups[k].words)
    requires GuessStep(s, groups, guess, now).response.correct
    requires !ConnectionsOver(GuessStep(s, groups, guess, now).session.connections)
    ensures var s1 := GuessStep(s, groups, guess, now).session;
      var o := GuessStep(s1, groups, guess, later);
      !o.response.correct && o.response.mistakes == s1.connections.mistakes + 1
  {
    var solved := Titles(s.connections.solvedGroups);
    var i := FindMatch(groups, solved, guess).value;
    var s1 := GuessStep(s, groups, guess, now).session;
    var solved1 := Titles(s1.connections.solvedGroups);
    assert groups[i] in s1.connections.solvedGroups;
    assert groups[i].title in solved1;
    forall k | 0 <= k < |groups| ensures !Matches(groups[k], solved1, guess) {
      if k < i {
        assert !SameWords(groups[k].words, groups[i].words);
      } else if k > i {
        assert !SameWords(groups[i].words, groups[k].words);
      }
    }
  }

  /** The guess step as the failure stamp evidently should be written: like
      `completeGame`, it only stamps a row that has no `completed_at` yet. */
  function GuessStepGuarded(s: Session, groups: seq<Group>, guess: seq<string>, now: int): GuessOutcome {
    var o := GuessStep(s, groups, guess, now);
    if !ConnectionsOver(s.connections) && !o.response.correct && o.response.failed && s.completedAt.Some? then
      GuessOutcome(o.session.(completedAt := s.completedAt, totalTimeMs := s.totalTimeMs), o.response)
    else o
  }

  /** With the guard, a stamped row keeps its finish time and total time. */
  lemma GuardedGuessKeepsStamp(s: Session, groups: seq<Group>, guess: seq<string>, now: int)
    requires s.completedAt.Some?
    ensures var o := GuessStepGuarded(s, groups, guess, now);
      o.session.completedAt == s.completedAt && o.session.totalTimeMs == s.totalTimeMs
  {
  }

  /** The guard changes nothing on a row without a stamp, and nothing but the stamp otherwise. */
  lemma GuardedGuessAgrees(s: Session, groups: seq<Group>, guess: seq<string>, now: int)
    ensures var g := GuessStepGuarded(s, groups, guess, now);
      var o := GuessStep(s, groups, guess, now);
      g.response == o.response &&
      g.session.(completedAt := o.session.completedAt, totalTimeMs := o.session.totalTimeMs) == o.session &&
      (s.completedAt.None? ==> g == o)
  {
  }

  // ---- checkCrossword ----

  /** `v[c]` for a value that is neither `null` nor `undefined`: a string's
      `c`-th character, an array's `c`-th element or an object's field named
      `c`. Numbers and booleans have no such property; `None` is `undefined`. */
  function Index(v: Json, c: int): Option<Json> {
    match v
    case JStr(s) => if 0 <= c < |s| then Some(JStr([s[c]])) else None
    case JArr(items) => if 0 <= c < |items| then Some(items[c]) else None
    case JObj(fields) => if c >= 0 && IntToString(c) in fields then Some(fields[IntToString(c)]) else None
    case _ => None
  }

  /** `playerGrid[r]?.[c]?.toUpperCase() || ''`: a missing or `null` entry reads
      as the empty string and a string is upper-cased. Any other value has no
      `toUpperCase`, so the call throws a `TypeError`; that is `None`. */
  function PlayerCell(player: PlayerGrid, r: int, c: int): Option<string> {
    var entry := if 0 <= r < |player| then Index(player[r], c) else None;
    match entry
    case None => Some("")
    case Some(JNull) => Some("")
    case Some(JStr(s)) => Some(Upper(s))
    case Some(_) => None
  }

  /** The scan reads every letter cell without throwing. Black cells are skipped
      before the read. */
  predicate Readable(answer: Grid, player: PlayerGrid) {
    forall r, c :: 0 <= r < |answer| && 0 <= c < |answer[r]| && answer[r][c].Some? ==> PlayerCell(player, r, c).Some?
  }

  /** Cell (r, c) is reported wrong: a letter cell whose upper-cased entry differs. */
  predicate IsWrong(answer: Grid, player: PlayerGrid, r: int, c: int)
    requires 0 <= r < |answer| && 0 <= c < |answer[r]|
  {
    answer[r][c].Some? && PlayerCell(player, r, c) != Some(Upper(answer[r][c].value))
  }

  /** A grid of the declared type, rows of strings or `null`, never throws. */
  lemma StringCellsReadable(answer: Grid, player: PlayerGrid)
    requires forall r :: 0 <= r < |player| ==>
      player[r].JArr? && forall c :: 0 <= c < |player[r].items| ==> player[r].items[c].JStr? || player[r].items[c].JNull?
    ensures Readable(answer, player)
  {
  }

  /** The wrong cells among the first `c` cells of row `r`, left to right. */
  function RowWrong(answer: Grid, player: PlayerGrid, r: int, c: int): seq<Coord>
    requires 0 <= r < |answer| && 0 <= c <= |answer[r]|
  {
    if c == 0 then []
    else RowWrong(answer, player, r, c - 1) + (if IsWrong(answer, player, r, c - 1) then [Coord(r, c - 1)] else [])
  }

  /** The wrong cells of the first `r` rows, in row-major order. */
  function RowsWrong(answer: Grid, player: PlayerGrid, r: int): seq<Coord>
    requires 0 <= r <= |answer|
  {
    if r == 0 then [] else RowsWrong(answer, player, r - 1) + RowWrong(answer, player, r - 1, |answer[r - 1]|)
  }

  function WrongCells(answer: Grid, player: PlayerGrid): seq<Coord> {
    RowsWrong(answer, player, |answer|)
  }

  predicate RowMajorBefore(a: Coord, b: Coord) {
    a.row < b.row || (a.row == b.row && a.col < b.col)
  }

  predicate RowMajorOrdered(cells: seq<Coord>) {
    forall i, j :: 0 <= i < j < |cells| ==> RowMajorBefore(cells[i], cells[j])
  }

  lemma {:induction false} RowWrongFacts(answer: Grid, player: PlayerGrid, r: int, c: int)
    requires 0 <= r < |answer| && 0 <= c <= |answer[r]|
    ensures forall x :: x in RowWrong(answer, player, r, c) <==>
      x.row == r && 0 <= x.col < c && IsWrong(answer, player, r, x.col)
    ensures RowMajorOrdered(RowWrong(answer, player, r, c))
  {
    if c > 0 {
      RowWrongFacts(answer, player, r, c - 1);
      var front := RowWrong(answer, player, r, c - 1);
      var last := if IsWrong(answer, player, r, c - 1) then [Coord(r, c - 1)] else [];
      assert RowWrong(answer, player, r, c) == front + last;
      forall i, j | 0 <= i < |front| <= j < |front| + |last|
        ensures RowMajorBefore((front + last)[i], (front + last)[j])
      {
        assert front[i] in front;
      }
    }
  }

  lemma {:induction false} RowsWrongFacts(answer: Grid, player: PlayerGrid, r: int)
    requires 0 <= r <= |answer|
    ensures forall x :: x in RowsWrong(answer, player, r) <==>
      0 <= x.row < r && 0 <= x.col < |answer[x.row]| && IsWrong(answer, player, x.row, x.col)
    ensures RowMajorOrdered(RowsWrong(answer, player, r))
  {
    if r > 0 {
      RowsWrongFacts(answer, player, r - 1);
      RowWrongFacts(answer, player, r - 1, |answer[r - 1]|);
      var front := RowsWrong(answer, player, r - 1);
      var last := RowWrong(answer, player, r - 1, |answer[r - 1]|);
      forall x | x in last ensures x == Coord(r - 1, x.col) {}
      forall i, j | 0 <= i < |front| <= j < |front| + |last|
        ensures RowMajorBefore((front + last)[i], (front + last)[j])
      {
        assert front[i] in front;
        assert last[j - |front|] in last;
      }
    }
  }

  /** The wrong cells are exactly the letter cells whose entry differs from the
      answer, ignoring case, listed in row-major order. */
  lemma WrongCellsExactly(answer: Grid, player: PlayerGrid)
    ensures forall r, c :: Coord(r, c) in WrongCells(answer, player) <==>
      0 <= r < |answer| && 0 <= c < |answer[r]| && IsWrong(answer, player, r, c)
    ensures RowMajorOrdered(WrongCells(answer, player))
  {
    RowsWrongFacts(answer, player, |answer|);
  }

  /** A submission is all correct exactly when every letter cell holds its answer. */
  lemma NoWrongCellsIff(answer: Grid, player: PlayerGrid)
    ensures WrongCells(answer, player) == [] <==>
      forall r, c :: 0 <= r < |answer| && 0 <= c < |answer[r]| && answer[r][c].Some? ==>
        PlayerCell(player, r, c) == Some(Upper(answer[r][c].value))
  {
    WrongCellsExactly(answer, player);
    var w := WrongCells(answer, player);
    if w != [] {
      var x := w[0];
      assert Coord(x.row, x.col) in w;
    } else {
      forall r, c | 0 <= r < |answer| && 0 <= c < |answer[r]| && answer[r][c].Some?
        ensures PlayerCell(player, r, c) == Some(Upper(answer[r][c].value))
      {
        assert Coord(r, c) !in w;
      }
    }
  }

  datatype CheckResult = CheckResult(correct: bool, wrongCells: seq<Coord>)

  /** `checkCrossword`: scan the answer grid row by row and collect the wrong
      cells; `None` when reading a cell throws. */
  method CheckCrossword(answer: Grid, player: PlayerGrid) returns (res: Option<CheckResult>)
    ensures res.Some? <==> Readable(answer, player)
    ensures res.Some? ==> res.value.wrongCells == WrongCells(answer, player)
    ensures res.Some? ==> (res.value.correct <==> res.value.wrongCells == [])
  {
    var wrong: seq<Coord> := [];
    var r := 0;
    while r < |answer|
      invariant 0 <= r <= |answer|
      invariant wrong == RowsWrong(answer, player, r)
      invariant forall i, j :: 0 <= i < r && 0 <= j < |answer[i]| && answer[i][j].Some? ==> PlayerCell(player, i, j).Some?
    {
      var c := 0;
      while c < |answer[r]|
        invariant 0 <= c <= |answer[r]|
        invariant wrong == RowsWrong(answer, player, r) + RowWrong(answer, player, r, c)
        invariant forall i, j :: 0 <= i < r && 0 <= j < |answer[i]| && answer[i][j].Some? ==> PlayerCell(player, i, j).Some?
        invariant forall j :: 0 <= j < c && answer[r][j].Some? ==> PlayerCell(player, r, j).Some?
      {
        if answer[r][c].Some? {
          var playerVal := PlayerCell(player, r, c);
          if playerVal.None? {
            return None;
          }
          var answerVal := Upper(answer[r][c].value);
          if playerVal.value != answerVal {
            wrong := wrong + [Coord(r, c)];
          }
        }
        c := c + 1;
      }
      r := r + 1;
    }
    res := Some(CheckResult(wrong == [], wrong));
  }

  // ---- submitCrossword ----

  datatype SubmitResponse = SubmitResponse(correct: bool, wrongCells: seq<Coord>, completed: bool, totalTimeMs: Option<int>)

  /** `response` is `None` when the call throws, before or after its writes. */
  datatype SubmitOutcome = SubmitOutcome(session: Session, response: Option<SubmitResponse>)

  /** `x || undefined` on a stored time. */
  function NonZero(t: Option<int>): Option<int> {
    if t.Some? && t.value != 0 then t else None
  }

  /** One crossword submission against the row `s`, as `submitCrossword` makes it.
      A cell that cannot be read throws before anything is written. When the
      final `completeGame` finds a stamp already there it returns no row, and
      reading `total_time_ms` from it throws. */
  function SubmitStep(s: Session, crossword: CrosswordData, grid: PlayerGrid, now: int): SubmitOutcome {
    var wrong := WrongCells(crossword.grid, grid);
    if !Readable(crossword.grid, grid) then SubmitOutcome(s, None)
    else if wrong != [] then
      SubmitOutcome(s.(crossword := CrosswordState(false, None, Some(grid))),
                    Some(SubmitResponse(false, wrong, false, None)))
    else
      var s1 := s.(crossword := CrosswordState(true, None, Some(grid)), crosswordCompleted := true);
      if s1.connectionsCompleted && !s1.failed then
        if s1.completedAt.None? then
          var s2 := Stamp(s1, now);
          SubmitOutcome(s2, Some(SubmitResponse(true, [], true, NonZero(s2.totalTimeMs))))
        else SubmitOutcome(s1, None)
      else SubmitOutcome(s1, Some(SubmitResponse(true, [], s1.connectionsCompleted, None)))
  }

  /** An unreadable grid changes nothing and fails; a wrong one only records
      the grid; a right one completes the crossword. The clock stops exactly
      when the grid is right, Connections is complete, nothing failed and no
      stamp is there yet; with a stamp but no failure, the final read of
      `total_time_ms` throws after the writes. A session stamped by its
      failure is graded and recorded like any other, its stamp kept. */
  lemma SubmitEffect(s: Session, crossword: CrosswordData, grid: PlayerGrid, now: int)
    ensures !Readable(crossword.grid, grid) ==> SubmitStep(s, crossword, grid, now) == SubmitOutcome(s, None)
    ensures var o := SubmitStep(s, crossword, grid, now);
      var wrong := WrongCells(crossword.grid, grid);
      var finishes := wrong == [] && s.connectionsCompleted && !s.failed;
      var stops := finishes && s.completedAt.None?;
      Readable(crossword.grid, grid) ==>
      (o.response.Some? <==> !(finishes && s.completedAt.Some?)) &&
      (o.response.Some? ==>
         (o.response.value.correct <==> wrong == []) &&
         o.response.value.wrongCells == wrong &&
         (o.response.value.completed <==> wrong == [] && s.connectionsCompleted) &&
         o.response.value.totalTimeMs == (if stops then NonZero(Elapsed(s.startedAt, now)) else None)) &&
      o.session.crossword.currentGrid == Some(grid) &&
      o.session.crossword.completed == (wrong == []) &&
      o.session.crosswordCompleted == (wrong == [] || s.crosswordCompleted) &&
      o.session.completedAt == (if stops then Some(now) else s.completedAt) &&
      o.session.totalTimeMs == (if stops then Elapsed(s.startedAt, now) else s.totalTimeMs) &&
      o.session.connections == s.connections && o.session.connectionsCompleted == s.connectionsCompleted &&
      o.session.startedAt == s.startedAt && o.session.firstPuzzle == s.firstPuzzle &&
      o.session.failed == s.failed
  {
  }

  // ---- giveUpCrossword ----

  /** `giveUpCrossword`: fail the crossword and the session and stamp the clock, unconditionally. */
  function GiveUpStep(s: Session, now: int): Session {
    Stamp(s.(crossword := s.crossword.(completed := false, failed := Some(true)), failed := true), now)
  }

  lemma GiveUpEffect(s: Session, now: int)
    ensures var g := GiveUpStep(s, now);
      g.crossword.failed == Some(true) && !g.crossword.completed && g.failed &&
      g.completedAt == Some(now) && g.totalTimeMs == Elapsed(s.startedAt, now) &&
      g.connections == s.connections && g.crosswordCompleted == s.crosswordCompleted &&
      g.connectionsCompleted == s.connectionsCompleted && g.startedAt == s.startedAt
  {
  }

  // ---- The row ----

  /** A `game_sessions` row. */
  class SessionRow {
    var startedAt: Option<int>
    var completedAt: Option<int>
    var firstPuzzle: Option<PuzzleType>
    var connectionsState: ConnectionsState
    var crosswordState: CrosswordState
    var connectionsCompleted: bool
    var crosswordCompleted: bool
    var totalTimeMs: Option<int>
    var failed: bool

    function Value(): Session
      reads this
    {
      Session(startedAt, completedAt, firstPuzzle, connectionsState, crosswordState,
              connectionsCompleted, crosswordCompleted, totalTimeMs, failed)
    }

    /** `INSERT INTO game_sessions (player_id)` with the column defaults. */
    constructor ()
      ensures Value() == InitialSession
    {
      startedAt, completedAt, firstPuzzle := None, None, None;
      connectionsState := InitialSession.connections;
      crosswordState := InitialSession.crossword;
      connectionsCompleted, crosswordCompleted := false, false;
      totalTimeMs, failed := None, false;
    }

    method StartPuzzle(kind: PuzzleType, now: int) returns (row: Session)
      modifies this
      ensures Value() == Started(old(Value()), kind, now)
      ensures row == Value()
    {
      if startedAt.None? {
        startedAt := Some(now);
        firstPuzzle := Some(kind);
      }
      row := Value();
    }

    method ProcessConnectionsGuess(groups: seq<Group>, guessWords: seq<string>, now: int)
      returns (resp: GuessResponse)
      modifies this
      ensures GuessStep(old(Value()), groups, guessWords, now) == GuessOutcome(Value(), resp)
    {
      var state := connectionsState;
      if state.failed || state.completed {
        return GuessResponse(false, None, state.mistakes, state.failed);
      }
      var matched := FindMatch(groups, Titles(state.solvedGroups), guessWords);
      if matched.Some? {
        var group := groups[matched.value];
        state := state.(solvedGroups := state.solvedGroups + [group]);
        var completed := |state.solvedGroups| == |groups|;
        state := state.(completed := completed);
        connectionsState := state;
        if completed {
          connectionsCompleted := true;
        }
        if completed && crosswordCompleted {
          var finalRow := CompleteGame(now);
        }
        return GuessResponse(true, Some(group), state.mistakes, false);
      }
      state := state.(mistakes := state.mistakes + 1);
      var failedNow := state.mistakes >= MaxConnectionsMistakes;
      state := state.(failed := failedNow);
      connectionsState := state;
      if failedNow {
        failed := true;
        completedAt := Some(now);
        totalTimeMs := Elapsed(startedAt, now);
      }
      resp := GuessResponse(false, None, state.mistakes, failedNow);
    }

    method SubmitCrossword(crossword: CrosswordData, playerGrid: PlayerGrid, now: int)
      returns (resp: Option<SubmitResponse>)
      modifies this
      ensures SubmitStep(old(Value()), crossword, playerGrid, now) == SubmitOutcome(Value(), resp)
    {
      var result := CheckCrossword(crossword.grid, playerGrid);
      if result.None? {
        return None;
      }
      var check := result.value;
      if !check.correct {
        crosswordState := CrosswordState(false, None, Some(playerGrid));
        return Some(SubmitResponse(false, check.wrongCells, false, None));
      }
      crosswordState := CrosswordState(true, None, Some(playerGrid));
      crosswordCompleted := true;
      if connectionsCompleted && crosswordCompleted && !failed {
        var finalRow := CompleteGame(now);
        if finalRow.None? {
          return None;
        }
        return Some(SubmitResponse(true, [], true, NonZero(finalRow.value.totalTimeMs)));
      }
      resp := Some(SubmitResponse(true, [], connectionsCompleted && crosswordCompleted, None));
    }

    method GiveUpCrossword(now: int) returns (row: Session)
      modifies this
      ensures Value() == GiveUpStep(old(Value()), now)
      ensures row == Value()
    {
      crosswordState := crosswordState.(completed := false, failed := Some(true));
      failed := true;
      completedAt := Some(now);
      totalTimeMs := Elapsed(startedAt, now);
      row := Value();
    }

    /** `completeGame`; returns the updated row, or nothing when the guard held it back. */
    method CompleteGame(now: int) returns (row: Option<Session>)
      modifies this
      ensures Value() == AfterComplete(old(Value()), now)
      ensures row == if old(completedAt).None? then Some(Value()) else None
    {
      if completedAt.None? {
        completedAt := Some(now);
        totalTimeMs := Elapsed(startedAt, now);
        return Some(Value());
      }
      row := None;
    }
  }

  /** `getOrCreateSession`: the player's row, inserted on first use. */
  method GetOrCreateSession(existing: SessionRow?) returns (row: SessionRow)
    ensures existing != null ==> row == existing
    ensures existing == null ==> fresh(row) && row.Value() == InitialSession
  {
    if existing != null {
      return existing;
    }
    row := new SessionRow();
  }
}
