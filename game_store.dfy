/** The client store of `stores/gameStore.ts`. Each action replaces some fields
    of the store through `set()`; here the store is an object whose methods
    assign those fields, and each method's new state is fixed by a step function
    on `StoreState`, the value of all modelled fields. A request's answer is a
    parameter: `Ok` is the server's JSON reply, `Err` the message of the error
    the call throws. */
module GameStore {
  import opened Wrappers
  import opened Text
  import opened StringOrder
  import opened Puzzle
  import opened GameService
  import opened GameRoutes
  import opened Shuffle

  datatype PlayerInfo = PlayerInfo(id: string, name: string, city: string, instagram: string)

  /** The Connections fields of the store. */
  datatype ConnectionsBoard = ConnectionsBoard(
    connectionsWords: seq<string>,
    selectedWords: seq<string>,
    solvedGroups: seq<Group>,
    connectionsMistakes: int,
    connectionsFailed: bool,
    connectionsCompleted: bool,
    previousGuesses: seq<string>,
    oneAway: bool)

  /** The crossword fields; `crosswordAttempts` is `None` once it has been
      assigned an `undefined`. */
  datatype CrosswordBoard = CrosswordBoard(
    crosswordGrid: Grid,
    crosswordCompleted: bool,
    crosswordFailed: bool,
    crosswordAttempts: Option<int>,
    cementedCells: seq<Coord>,
    wrongCells: seq<Coord>)

  /** The timer fields, as millisecond instants and a duration. */
  datatype Timing = Timing(startedAt: Option<int>, completedAt: Option<int>, totalTimeMs: Option<int>)

  /** The modelled fields of the store. `session`, `crosswordPuzzle`,
      `gameAvailable`, `gameLocked`, `serverTime` and `serverTimeOffset` are
      filled only by the actions that are not modelled, and are left out. */
  datatype StoreState = StoreState(
    player: Option<PlayerInfo>,
    sessionToken: Option<string>,
    puzzleDate: Option<string>,
    connections: ConnectionsBoard,
    crossword: CrosswordBoard,
    timing: Timing,
    loading: bool,
    error: Option<string>)

  const NoConnections := ConnectionsBoard([], [], [], 0, false, false, [], false)
  const NoCrossword := CrosswordBoard([], false, false, Some(0), [], [])
  const NoTiming := Timing(None, None, None)

  /** The store as created; the session token is whatever local storage held. */
  function InitialStore(storedToken: Option<string>): StoreState {
    StoreState(None, storedToken, None, NoConnections, NoCrossword, NoTiming, false, None)
  }

  // ---- Word selection ----

  /** `selectWord`. */
  function Select(c: ConnectionsBoard, word: string): ConnectionsBoard {
    if |c.selectedWords| < ConnectionsGroupSize && word !in c.selectedWords
    then c.(selectedWords := c.selectedWords + [word])
    else c
  }

  /** `ws.filter(w => w !== word)`. */
  function Without(ws: seq<string>, word: string): (r: seq<string>)
    ensures forall w :: w in r <==> w in ws && w != word
    ensures |r| <= |ws|
  {
    if ws == [] then []
    else
      var rest := Without(ws[1..], word);
      assert forall w :: w in ws <==> w == ws[0] || w in ws[1..];
      if ws[0] == word then rest else [ws[0]] + rest
  }

  /** `deselectWord`. */
  function Deselect(c: ConnectionsBoard, word: string): ConnectionsBoard {
    c.(selectedWords := Without(c.selectedWords, word))
  }

  predicate Distinct(ws: seq<string>) {
    forall i, j :: 0 <= i < j < |ws| ==> ws[i] != ws[j]
  }

  /** What the selection always is: at most four distinct words. */
  predicate SelectionOk(sel: seq<string>) {
    |sel| <= ConnectionsGroupSize && Distinct(sel)
  }

  lemma {:induction false} WithoutKeepsDistinct(ws: seq<string>, word: string)
    requires Distinct(ws)
    ensures Distinct(Without(ws, word))
    decreases |ws|
  {
    if ws != [] {
      assert Distinct(ws[1..]) by {
        forall i, j | 0 <= i < j < |ws[1..]| ensures ws[1..][i] != ws[1..][j] {
          assert ws[1..][i] == ws[i + 1] && ws[1..][j] == ws[j + 1];
        }
      }
      WithoutKeepsDistinct(ws[1..], word);
      if ws[0] != word {
        var rest := Without(ws[1..], word);
        assert ws[0] !in ws[1..] by {
          forall k | 0 <= k < |ws[1..]| ensures ws[1..][k] != ws[0] {
            assert ws[1..][k] == ws[k + 1];
          }
        }
        var r := [ws[0]] + rest;
        forall i, j | 0 <= i < j < |r| ensures r[i] != r[j] {
          if i == 0 {
            assert r[j] == rest[j - 1] && r[j] in rest;
          } else {
            assert r[i] == rest[i - 1] && r[j] == rest[j - 1];
          }
        }
      }
    }
  }

  /** A word not in the list leaves it as it is. */
  lemma {:induction false} WithoutAbsent(ws: seq<string>, word: string)
    requires word !in ws
    ensures Without(ws, word) == ws
    decreases |ws|
  {
    if ws != [] {
      assert word !in ws[1..];
      WithoutAbsent(ws[1..], word);
      assert ws == [ws[0]] + ws[1..];
    }
  }

  lemma {:induction false} WithoutAppend(ws: seq<string>, x: string, word: string)
    ensures Without(ws + [x], word) == Without(ws, word) + Without([x], word)
    decreases |ws|
  {
    if ws == [] {
      assert ws + [x] == [x];
    } else {
      assert (ws + [x])[0] == ws[0] && (ws + [x])[1..] == ws[1..] + [x];
      WithoutAppend(ws[1..], x, word);
    }
  }

  /** Selecting adds the word at the end exactly when fewer than four are chosen and
      it is not among them, and otherwise changes nothing; the selection stays at
      most four distinct words. */
  lemma SelectEffect(c: ConnectionsBoard, word: string)
    requires SelectionOk(c.selectedWords)
    ensures SelectionOk(Select(c, word).selectedWords)
    ensures Select(c, word).selectedWords == c.selectedWords + [word] <==>
      |c.selectedWords| < ConnectionsGroupSize && word !in c.selectedWords
    ensures Select(c, word).selectedWords != c.selectedWords + [word] ==> Select(c, word) == c
  {
    var sel := c.selectedWords;
    if |sel| < ConnectionsGroupSize && word !in sel {
      var r := sel + [word];
      forall i, j | 0 <= i < j < |r| ensures r[i] != r[j] {
        if j == |sel| { assert r[i] == sel[i]; }
      }
    } else {
      assert |sel + [word]| != |sel|;
    }
  }

  /** Deselecting removes the word, keeps every other chosen word and keeps the
      selection well formed. */
  lemma DeselectEffect(c: ConnectionsBoard, word: string)
    requires SelectionOk(c.selectedWords)
    ensures SelectionOk(Deselect(c, word).selectedWords)
    ensures word !in Deselect(c, word).selectedWords
    ensures forall w :: w in c.selectedWords && w != word ==> w in Deselect(c, word).selectedWords
  {
    WithoutKeepsDistinct(c.selectedWords, word);
  }

  /** Deselecting a word just selected restores the selection. */
  lemma DeselectUndoesSelect(c: ConnectionsBoard, word: string)
    requires word !in c.selectedWords && |c.selectedWords| < ConnectionsGroupSize
    ensures Deselect(Select(c, word), word) == c
  {
    WithoutAppend(c.selectedWords, word, word);
    WithoutAbsent(c.selectedWords, word);
    assert Without([word], word) == [];
  }

  // ---- submitConnectionsGuess ----

  /** `[...selectedWords].map(w => w.toUpperCase()).sort().join('|')`. */
  function GuessKey(ws: seq<string>): string {
    Join(Normalized(ws), "|")
  }

  /** The same words in any order and case make the same key. */
  lemma GuessKeyIgnoresOrderAndCase(a: seq<string>, b: seq<string>)
    requires SameWords(a, b)
    ensures GuessKey(a) == GuessKey(b)
  {
    SortEqualIff(UpperAll(a), UpperAll(b));
  }

  /** What the action resolves to. */
  datatype GuessResult = GuessResult(correct: bool, failed: bool, group: Option<Group>, duplicate: bool)

  datatype AfterGuess = AfterGuess(connections: ConnectionsBoard, error: Option<string>, result: GuessResult)

  /** The whole action on the Connections fields and `error`: the two local
      refusals, then the request and its answer. */
  function SubmitGuess(c: ConnectionsBoard, error: Option<string>, reply: Result<GuessResponse, string>): AfterGuess {
    var key := GuessKey(c.selectedWords);
    if |c.selectedWords| != ConnectionsGroupSize then AfterGuess(c, error, GuessResult(false, false, None, false))
    else if key in c.previousGuesses then AfterGuess(c, error, GuessResult(false, false, None, true))
    else match reply
      case Err(message) => AfterGuess(c, Some(message), GuessResult(false, false, None, false))
      case Ok(data) =>
        var tracked := c.(previousGuesses := c.previousGuesses + [key]);
        if data.correct && data.group.Some? then
          var g := data.group.value;
          AfterGuess(
            tracked.(solvedGroups := c.solvedGroups + [g],
                     connectionsWords := WithoutSolved(c.connectionsWords, UpperSet(g.words)),
                     selectedWords := [],
                     connectionsCompleted := |c.solvedGroups| + 1 == ConnectionsNumGroups,
                     oneAway := false),
            error, GuessResult(true, false, Some(g), false))
        else
          AfterGuess(
            tracked.(connectionsMistakes := data.mistakes, connectionsFailed := data.failed,
                     selectedWords := [], oneAway := false),
            error, GuessResult(false, data.failed, None, false))
  }

  /** Without exactly four selected words, or with a key already tried, nothing is
      sent and nothing changes; a repeat is reported as a duplicate. */
  lemma GuessRefusedLocally(c: ConnectionsBoard, error: Option<string>, reply: Result<GuessResponse, string>)
    requires |c.selectedWords| != ConnectionsGroupSize || GuessKey(c.selectedWords) in c.previousGuesses
    ensures SubmitGuess(c, error, reply).connections == c && SubmitGuess(c, error, reply).error == error
    ensures !SubmitGuess(c, error, reply).result.correct && !SubmitGuess(c, error, reply).result.failed
    ensures SubmitGuess(c, error, reply).result.duplicate <==> |c.selectedWords| == ConnectionsGroupSize
  {
  }

  /** Once a guess has been answered, the same words in another order or case
      are a duplicate and are not sent. */
  lemma GuessRepeatIsDuplicate(c: ConnectionsBoard, error: Option<string>, reply: Result<GuessResponse, string>,
                               again: seq<string>, reply2: Result<GuessResponse, string>)
    requires |c.selectedWords| == ConnectionsGroupSize && GuessKey(c.selectedWords) !in c.previousGuesses
    requires reply.Ok? && |again| == ConnectionsGroupSize && SameWords(again, c.selectedWords)
    ensures var next := SubmitGuess(c, error, reply).connections.(selectedWords := again);
      SubmitGuess(next, error, reply2) == AfterGuess(next, error, GuessResult(false, false, None, true))
  {
    GuessKeyIgnoresOrderAndCase(again, c.selectedWords);
  }

  /** A correct answer appends its group, drops exactly that group's words (up to
      case) from the board, clears the selection, and completes Connections
      exactly when four groups are solved. */
  lemma CorrectGuessEffect(c: ConnectionsBoard, error: Option<string>, data: GuessResponse)
    requires |c.selectedWords| == ConnectionsGroupSize && GuessKey(c.selectedWords) !in c.previousGuesses
    requires data.correct && data.group.Some?
    ensures var after := SubmitGuess(c, error, Ok(data));
      var g := data.group.value;
      after.result == GuessResult(true, false, Some(g), false) &&
      after.connections.solvedGroups == c.solvedGroups + [g] &&
      (forall w :: w in after.connections.connectionsWords <==>
         w in c.connectionsWords && !(exists v :: v in g.words && Upper(v) == Upper(w))) &&
      after.connections.selectedWords == [] &&
      (after.connections.connectionsCompleted <==> |after.connections.solvedGroups| == ConnectionsNumGroups) &&
      after.connections.previousGuesses == c.previousGuesses + [GuessKey(c.selectedWords)] &&
      after.connections.connectionsMistakes == c.connectionsMistakes
  {
  }

  /** A wrong answer takes the server's count and flag and clears the selection. */
  lemma WrongGuessEffect(c: ConnectionsBoard, error: Option<string>, data: GuessResponse)
    requires |c.selectedWords| == ConnectionsGroupSize && GuessKey(c.selectedWords) !in c.previousGuesses
    requires !(data.correct && data.group.Some?)
    ensures var after := SubmitGuess(c, error, Ok(data));
      after.result == GuessResult(false, data.failed, None, false) &&
      after.connections.connectionsMistakes == data.mistakes && after.connections.connectionsFailed == data.failed &&
      after.connections.selectedWords == [] && after.connections.solvedGroups == c.solvedGroups &&
      after.connections.connectionsWords == c.connectionsWords && !after.connections.oneAway
  {
  }

  /** A failed request records only its message; the guess is not remembered. */
  lemma FailedRequestEffect(c: ConnectionsBoard, error: Option<string>, message: string)
    requires |c.selectedWords| == ConnectionsGroupSize && GuessKey(c.selectedWords) !in c.previousGuesses
    ensures SubmitGuess(c, error, Err(message)) == AfterGuess(c, Some(message), GuessResult(false, false, None, false))
  {
  }

  // ---- Crossword cells ----

  predicate IsCemented(cells: seq<Coord>, row: int, col: int) {
    exists k :: 0 <= k < |cells| && cells[k].row == row && cells[k].col == col
  }

  /** `updateCrosswordCell`: a cemented cell returns at once; otherwise an existing
      non-black cell gets the upper-cased value and the wrong-cell marks go.
      A row outside the grid is skipped, as `grid[row]` is then undefined. A
      column outside its row is left alone here, while JavaScript writes it:
      one at or past the end lengthens the row (padding it with holes), and a
      negative one becomes a named property that the row's elements and
      `length` do not show. The grid offers no such cell to edit. */
  function UpdateCell(x: CrosswordBoard, row: int, col: int, value: string): CrosswordBoard {
    if IsCemented(x.cementedCells, row, col) then x
    else
      var g := x.crosswordGrid;
      var grid := if 0 <= row < |g| && 0 <= col < |g[row]| && g[row][col].Some?
                  then g[row := g[row][col := Some(Upper(value))]] else g;
      x.(crosswordGrid := grid, wrongCells := [])
  }

  /** Only the chosen cell changes, and only when it is neither cemented nor black. */
  lemma UpdateCellEffect(x: CrosswordBoard, row: int, col: int, value: string)
    ensures var after := UpdateCell(x, row, col, value);
      var g := x.crosswordGrid;
      |after.crosswordGrid| == |g| &&
      (forall r :: 0 <= r < |g| ==> |after.crosswordGrid[r]| == |g[r]|) &&
      (forall r, c :: 0 <= r < |g| && 0 <= c < |g[r]| && (r != row || c != col) ==> after.crosswordGrid[r][c] == g[r][c]) &&
      (0 <= row < |g| && 0 <= col < |g[row]| ==>
        after.crosswordGrid[row][col] ==
          if IsCemented(x.cementedCells, row, col) || g[row][col].None? then g[row][col] else Some(Upper(value))) &&
      (after.wrongCells == [] <==> !IsCemented(x.cementedCells, row, col) || x.wrongCells == []) &&
      after.(crosswordGrid := g, wrongCells := x.wrongCells) == x
  {
  }

  /** What `submitCrossword` resolves to. */
  datatype SubmitResult = SubmitResult(correct: bool, completed: bool, totalTimeMs: Option<int>)

  datatype AfterSubmit = AfterSubmit(crossword: CrosswordBoard, timing: Timing, error: Option<string>, result: SubmitResult)

  /** `submitCrossword`: `cementedCells` is replaced by the reply's missing
      `correct_cells`, that is by `[]`, and `crosswordAttempts` by its missing
      `attempts`; `now` is the client's clock. */
  function CrosswordSubmit(x: CrosswordBoard, t: Timing, error: Option<string>,
                           reply: Result<SubmitResponse, string>, now: int): AfterSubmit {
    match reply
    case Err(message) => AfterSubmit(x, t, Some(message), SubmitResult(false, false, None))
    case Ok(data) =>
      var result := SubmitResult(data.correct, data.completed, data.totalTimeMs);
      if data.correct then
        AfterSubmit(
          x.(crosswordCompleted := true, wrongCells := [], cementedCells := [], crosswordAttempts := None),
          t.(completedAt := if data.completed then Some(now) else t.completedAt,
             totalTimeMs := if data.totalTimeMs.Some? then data.totalTimeMs else t.totalTimeMs),
          error, result)
      else
        AfterSubmit(
          x.(wrongCells := data.wrongCells, cementedCells := [], crosswordAttempts := None, crosswordFailed := false),
          t, error, result)
  }

  /** After any answer no cell is cemented and no attempt count is known; a
      correct answer keeps the earlier stop time and total unless this
      submission supplies new ones; a wrong one clears the failed flag. A
      failed request records only its message and resolves to
      `{correct: false, completed: false}`. */
  lemma SubmitCrosswordEffect(x: CrosswordBoard, t: Timing, error: Option<string>,
                              reply: Result<SubmitResponse, string>, now: int)
    ensures var after := CrosswordSubmit(x, t, error, reply, now);
      reply.Err? ==>
        after.crossword == x && after.timing == t && after.error == Some(reply.error) &&
        !after.result.correct && !after.result.completed
    ensures var after := CrosswordSubmit(x, t, error, reply, now);
      reply.Ok? ==>
      var data := reply.value;
      after.crossword.cementedCells == [] && after.crossword.crosswordGrid == x.crosswordGrid &&
      after.crossword.crosswordAttempts.None? && after.error == error &&
      after.timing.startedAt == t.startedAt &&
      after.result == SubmitResult(data.correct, data.completed, data.totalTimeMs) &&
      (data.correct ==> (after.crossword.crosswordCompleted && after.crossword.wrongCells == [] &&
        after.crossword.crosswordFailed == x.crosswordFailed &&
        (after.timing.completedAt == if data.completed then Some(now) else t.completedAt) &&
        (data.totalTimeMs.Some? ==> after.timing.totalTimeMs == data.totalTimeMs) &&
        (data.totalTimeMs.None? ==> after.timing.totalTimeMs == t.totalTimeMs))) &&
      (!data.correct ==> (after.crossword.wrongCells == data.wrongCells && after.timing == t &&
        !after.crossword.crosswordFailed &&
        after.crossword.crosswordCompleted == x.crosswordCompleted))
  {
  }

  datatype AfterGiveUp = AfterGiveUp(crossword: CrosswordBoard, timing: Timing, error: Option<string>)

  /** `giveUpCrossword`: the stop time is the client's clock, the total the
      server's, with 0 read as no total. */
  function GiveUp(x: CrosswordBoard, t: Timing, error: Option<string>, reply: Result<GiveUpReply, string>,
                  now: int): AfterGiveUp {
    match reply
    case Err(message) => AfterGiveUp(x, t, Some(message))
    case Ok(data) => AfterGiveUp(x.(crosswordFailed := true), t.(completedAt := Some(now), totalTimeMs := NonZero(data.totalTimeMs)), error)
  }

  /** An accepted give-up fails the crossword, stops the clock at the client's
      time and takes the server's total, with 0 read as no total; the grid and
      the rest of the board stay. A failed request records only its message. */
  lemma GiveUpEffect(x: CrosswordBoard, t: Timing, error: Option<string>, reply: Result<GiveUpReply, string>,
                     now: int)
    ensures var after := GiveUp(x, t, error, reply, now);
      reply.Err? ==> after.crossword == x && after.timing == t && after.error == Some(reply.error)
    ensures var after := GiveUp(x, t, error, reply, now);
      reply.Ok? ==>
      var data := reply.value;
      after.crossword == x.(crosswordFailed := true) && after.error == error &&
      after.timing.completedAt == Some(now) && after.timing.startedAt == t.startedAt &&
      (after.timing.totalTimeMs.Some? <==> data.totalTimeMs.Some? && data.totalTimeMs.value != 0) &&
      (after.timing.totalTimeMs.Some? ==> after.timing.totalTimeMs == data.totalTimeMs)
  {
  }

  /** `resetGame`: every player and puzzle field back to its initial value; the
      token is dropped, the puzzle date stays. */
  function Reset(st: StoreState): StoreState {
    StoreState(None, None, st.puzzleDate, NoConnections, NoCrossword, NoTiming, false, None)
  }

  lemma ResetRestoresInitial(st: StoreState)
    ensures Reset(st) == InitialStore(None).(puzzleDate := st.puzzleDate)
    ensures Reset(Reset(st)) == Reset(st)
    ensures Reset(st).connections.selectedWords == [] && Reset(st).crossword.crosswordAttempts == Some(0)
  {
  }

  // ---- What every action keeps ----

  /** Fields the server never fills in stay at their defaults: no cell is ever
      cemented and nothing is ever one away; the selection stays well formed. */
  predicate StoreOk(st: StoreState) {
    SelectionOk(st.connections.selectedWords) && st.crossword.cementedCells == [] && !st.connections.oneAway
  }

  lemma InitialStoreOk(token: Option<string>)
    ensures StoreOk(InitialStore(token))
  {
  }

  /** A guess either changes nothing or clears the selection and `oneAway`. */
  lemma GuessKeepsSelection(c: ConnectionsBoard, error: Option<string>, reply: Result<GuessResponse, string>)
    requires SelectionOk(c.selectedWords) && !c.oneAway
    ensures var a := SubmitGuess(c, error, reply); SelectionOk(a.connections.selectedWords) && !a.connections.oneAway
  {
    var a := SubmitGuess(c, error, reply);
    if |c.selectedWords| != ConnectionsGroupSize || GuessKey(c.selectedWords) in c.previousGuesses || reply.Err? {
      assert a.connections == c;
    } else {
      assert a.connections.selectedWords == [] && !a.connections.oneAway;
    }
  }

  lemma ConnectionsActionsKeepStoreOk(st: StoreState, word: string, reply: Result<GuessResponse, string>)
    requires StoreOk(st)
    ensures StoreOk(st.(connections := Select(st.connections, word)))
    ensures StoreOk(st.(connections := Deselect(st.connections, word)))
    ensures StoreOk(st.(connections := st.connections.(selectedWords := [])))
    ensures var a := SubmitGuess(st.connections, st.error, reply); StoreOk(st.(connections := a.connections, error := a.error))
  {
    SelectEffect(st.connections, word);
    DeselectEffect(st.connections, word);
    GuessKeepsSelection(st.connections, st.error, reply);
  }

  lemma CrosswordActionsKeepStoreOk(st: StoreState, row: int, col: int, value: string,
                                    submit: Result<SubmitResponse, string>, giveUp: Result<GiveUpReply, string>, now: int)
    requires StoreOk(st)
    ensures StoreOk(st.(crossword := UpdateCell(st.crossword, row, col, value)))
    ensures var a := CrosswordSubmit(st.crossword, st.timing, st.error, submit, now);
      StoreOk(st.(crossword := a.crossword, timing := a.timing, error := a.error))
    ensures var a := GiveUp(st.crossword, st.timing, st.error, giveUp, now);
      StoreOk(st.(crossword := a.crossword, timing := a.timing, error := a.error))
    ensures StoreOk(Reset(st))
  {
  }

  /** Since nothing is cemented, an edit of an existing letter cell always lands. */
  lemma EditAlwaysLands(st: StoreState, row: int, col: int, value: string)
    requires StoreOk(st)
    requires 0 <= row < |st.crossword.crosswordGrid| && 0 <= col < |st.crossword.crosswordGrid[row]|
    requires st.crossword.crosswordGrid[row][col].Some?
    ensures UpdateCell(st.crossword, row, col, value).crosswordGrid[row][col] == Some(Upper(value))
    ensures UpdateCell(st.crossword, row, col, value).wrongCells == []
  {
  }

  // ---- The store object ----

  /** The store. Its fields are grouped as the store's interface groups them:
      player, session, Connections, crossword, timer and UI. */
  class Store {
    var player: Option<PlayerInfo>
    var sessionToken: Option<string>
    var puzzleDate: Option<string>
    var connections: ConnectionsBoard
    var crossword: CrosswordBoard
    var timing: Timing
    var loading: bool
    var error: Option<string>

    function Value(): StoreState
      reads this
    {
      StoreState(player, sessionToken, puzzleDate, connections, crossword, timing, loading, error)
    }

    constructor (storedToken: Option<string>)
      ensures Value() == InitialStore(storedToken)
    {
      player, sessionToken, puzzleDate := None, storedToken, None;
      connections, crossword, timing := NoConnections, NoCrossword, NoTiming;
      loading, error := false, None;
    }

    method SelectWord(word: string)
      modifies this
      ensures Value() == old(Value()).(connections := Select(old(connections), word))
    {
      var selected := connections.selectedWords;
      if |selected| < ConnectionsGroupSize && word !in selected {
        connections := connections.(selectedWords := selected + [word]);
      }
    }

    method DeselectWord(word: string)
      modifies this
      ensures Value() == old(Value()).(connections := Deselect(old(connections), word))
    {
      connections := connections.(selectedWords := Without(connections.selectedWords, word));
    }

    method ClearSelection()
      modifies this
      ensures Value() == old(Value()).(connections := old(connections).(selectedWords := []))
    {
      connections := connections.(selectedWords := []);
    }

    /** `shuffleConnectionsWords`: Fisher–Yates on a copy, then stored back. */
    method ShuffleConnectionsWords(draws: seq<nat>)
      requires |draws| >= |connections.connectionsWords| && ValidDraws(draws)
      modifies this
      ensures connections.connectionsWords == Shuffled(old(connections.connectionsWords), draws)
      ensures multiset(connections.connectionsWords) == multiset(old(connections.connectionsWords))
      ensures Value() == old(Value()).(connections := old(connections).(connectionsWords := connections.connectionsWords))
    {
      var current := connections.connectionsWords;
      var words := new string[|current|](i requires 0 <= i < |current| => current[i]);
      assert words[..] == current;
      FisherYates(words, draws);
      ShuffledPermutes(current, draws);
      connections := connections.(connectionsWords := words[..]);
    }

    method SubmitConnectionsGuess(reply: Result<GuessResponse, string>) returns (result: GuessResult)
      modifies this
      ensures var a := SubmitGuess(old(connections), old(error), reply);
        result == a.result && Value() == old(Value()).(connections := a.connections, error := a.error)
    {
      var selected := connections.selectedWords;
      if |selected| != ConnectionsGroupSize {
        return GuessResult(false, false, None, false);
      }
      var guessKey := GuessKey(selected);
      if guessKey in connections.previousGuesses {
        return GuessResult(false, false, None, true);
      }
      if reply.Err? {
        error := Some(reply.error);
        return GuessResult(false, false, None, false);
      }
      var data := reply.value;
      connections := connections.(previousGuesses := connections.previousGuesses + [guessKey]);
      if data.correct && data.group.Some? {
        var g := data.group.value;
        var solvedWordSet := UpperSet(g.words);
        var remainingWords := WithoutSolved(connections.connectionsWords, solvedWordSet);
        connections := connections.(solvedGroups := connections.solvedGroups + [g], connectionsWords := remainingWords,
                                    selectedWords := [],
                                    connectionsCompleted := |connections.solvedGroups| + 1 == ConnectionsNumGroups,
                                    oneAway := false);
        return GuessResult(true, false, Some(g), false);
      }
      connections := connections.(connectionsMistakes := data.mistakes, connectionsFailed := data.failed,
                                  selectedWords := [], oneAway := false);
      result := GuessResult(false, data.failed, None, false);
    }

    method UpdateCrosswordCell(row: int, col: int, value: string)
      modifies this
      ensures Value() == old(Value()).(crossword := UpdateCell(old(crossword), row, col, value))
    {
      if IsCemented(crossword.cementedCells, row, col) {
        return;
      }
      var grid: Grid := crossword.crosswordGrid;
      if 0 <= row < |grid| && 0 <= col < |grid[row]| && grid[row][col].Some? {
        grid := grid[row := grid[row][col := Some(Upper(value))]];
      }
      crossword := crossword.(crosswordGrid := grid, wrongCells := []);
    }

    method SubmitCrossword(reply: Result<SubmitResponse, string>, now: int) returns (result: SubmitResult)
      modifies this
      ensures var a := CrosswordSubmit(old(crossword), old(timing), old(error), reply, now);
        result == a.result && Value() == old(Value()).(crossword := a.crossword, timing := a.timing, error := a.error)
    {
      if reply.Err? {
        error := Some(reply.error);
        return SubmitResult(false, false, None);
      }
      var data := reply.value;
      if data.correct {
        crossword := crossword.(crosswordCompleted := true, wrongCells := [], cementedCells := [],
                                crosswordAttempts := None);
        if data.completed {
          timing := timing.(completedAt := Some(now));
        }
        if data.totalTimeMs.Some? {
          timing := timing.(totalTimeMs := data.totalTimeMs);
        }
      } else {
        crossword := crossword.(wrongCells := data.wrongCells, cementedCells := [], crosswordAttempts := None,
                                crosswordFailed := false);
      }
      result := SubmitResult(data.correct, data.completed, data.totalTimeMs);
    }

    method GiveUpCrossword(reply: Result<GiveUpReply, string>, now: int)
      modifies this
      ensures var a := GiveUp(old(crossword), old(timing), old(error), reply, now);
        Value() == old(Value()).(crossword := a.crossword, timing := a.timing, error := a.error)
    {
      if reply.Err? {
        error := Some(reply.error);
        return;
      }
      crossword := crossword.(crosswordFailed := true);
      timing := timing.(completedAt := Some(now), totalTimeMs := NonZero(reply.value.totalTimeMs));
    }

    method ResetGame()
      modifies this
      ensures Value() == Reset(old(Value()))
    {
      player, sessionToken := None, None;
      connections, crossword, timing := NoConnections, NoCrossword, NoTiming;
      loading, error := false, None;
    }
  }

  // ---- The guess key can merge different guesses ----

  /** Two guesses that hold different words, written so that their keys coincide:
      a word may itself contain the `|` separator. */
  const KeyGuessA: seq<string> := ["A" + "|" + "B", "C", "D", "E"]
  const KeyGuessB: seq<string> := ["A", "B" + "|" + "C", "D", "E"]

  lemma SortedIsSort(s: seq<string>)
    requires Sorted(s)
    ensures Sort(s) == s
  {
    SortedUnique(Sort(s), s);
  }

  /** Four words in strictly increasing order by their first letters are sorted. */
  lemma FourSorted(ws: seq<string>)
    requires |ws| == 4 && forall i :: 0 <= i < 4 ==> ws[i] != []
    requires ws[0][0] < ws[1][0] < ws[2][0] < ws[3][0]
    ensures Sorted(ws)
  {
    forall i, j | 0 <= i < j < 4 ensures Leq(ws[i], ws[j]) {
      assert ws[i][0] < ws[j][0];
    }
  }

  lemma JoinFour(ws: seq<string>, sep: string)
    requires |ws| == 4
    ensures Join(ws, sep) == ws[0] + sep + (ws[1] + sep + (ws[2] + sep + ws[3]))
  {
    var u := ws[1..];
    var t := u[1..];
    assert t == [ws[2], ws[3]] && t[1..] == [ws[3]];
    assert Join(t, sep) == ws[2] + sep + ws[3];
    assert Join(u, sep) == ws[1] + sep + Join(t, sep);
    assert Join(ws, sep) == ws[0] + sep + Join(u, sep);
  }

  /** Each guess is already upper case and in order, so it is its own normal form. */
  lemma KeyGuessANormal()
    ensures Normalized(KeyGuessA) == KeyGuessA
  {
    UpperNoLower(KeyGuessA[0]);
    UpperNoLower("C");
    UpperNoLower("D");
    UpperNoLower("E");
    assert UpperAll(KeyGuessA) == KeyGuessA;
    FourSorted(KeyGuessA);
    SortedIsSort(KeyGuessA);
  }

  lemma KeyGuessBNormal()
    ensures Normalized(KeyGuessB) == KeyGuessB
  {
    UpperNoLower("A");
    UpperNoLower(KeyGuessB[1]);
    UpperNoLower("D");
    UpperNoLower("E");
    assert UpperAll(KeyGuessB) == KeyGuessB;
    FourSorted(KeyGuessB);
    SortedIsSort(KeyGuessB);
  }

  /** Moving a separator from inside one word to inside the next leaves the
      joined text as it was. */
  lemma JoinRegroup(p: string, q: string, r: string, u: string, v: string, sep: string)
    ensures Join([p + sep + q, r, u, v], sep) == Join([p, q + sep + r, u, v], sep)
  {
    JoinFour([p + sep + q, r, u, v], sep);
    JoinFour([p, q + sep + r, u, v], sep);
    var tail := u + sep + v;
    assert p + sep + q + sep + (r + sep + tail) == p + sep + (q + sep + r + sep + tail);
  }

  lemma KeysCoincide()
    ensures GuessKey(KeyGuessA) == GuessKey(KeyGuessB)
  {
    KeyGuessANormal();
    KeyGuessBNormal();
    JoinRegroup("A", "B", "C", "D", "E", "|");
  }

  lemma GuessesDiffer()
    ensures !SameWords(KeyGuessA, KeyGuessB)
  {
    KeyGuessANormal();
    KeyGuessBNormal();
    assert |KeyGuessA[0]| != |KeyGuessB[0]|;
    SortEqualIff(UpperAll(KeyGuessA), UpperAll(KeyGuessB));
  }

  /** The key is not injective: after guessing A, the different guess B is
      reported as a duplicate and never reaches the server. */
  lemma GuessKeyCollides(c: ConnectionsBoard, error: Option<string>, reply: Result<GuessResponse, string>,
                          reply2: Result<GuessResponse, string>)
    requires c.selectedWords == KeyGuessA && GuessKey(KeyGuessA) !in c.previousGuesses && reply.Ok?
    ensures !SameWords(KeyGuessA, KeyGuessB)
    ensures var next := SubmitGuess(c, error, reply).connections.(selectedWords := KeyGuessB);
      SubmitGuess(next, error, reply2) == AfterGuess(next, error, GuessResult(false, false, None, true))
  {
    KeysCoincide();
    GuessesDiffer();
  }

  /** The key the duplicate check evidently means: the sorted upper-cased words
      themselves, kept as a list rather than joined into one string. */
  function GuessWordsKey(ws: seq<string>): seq<string> {
    Normalized(ws)
  }

  /** Two guesses share this key exactly when they hold the same words up to
      order and case. */
  lemma GuessWordsKeyExact(a: seq<string>, b: seq<string>)
    ensures GuessWordsKey(a) == GuessWordsKey(b) <==> SameWords(a, b)
  {
    SortEqualIff(UpperAll(a), UpperAll(b));
  }
}
