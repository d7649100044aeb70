/** The player routes of `routes/game.ts`: request validation, the guards that
    decide which session may change, and the views of the puzzle sent to a player.
    Each route is a function from the request, the `current_puzzle` row and the
    player's session to the new session and the reply; the handlers apply it to
    a `SessionRow`. */
module GameRoutes {
  import opened Wrappers
  import opened Text
  import opened Puzzle
  import opened Json
  import opened GameService
  import opened Shuffle

  /** An error reply: HTTP status and message. */
  datatype Failure = Failure(status: nat, message: string)

  /** What a route leaves behind: the player's session (if any) and the reply. */
  datatype Outcome<T> = Outcome(session: Option<Session>, reply: Result<T, Failure>)

  const NoPuzzle := Failure(404, "No puzzle available")
  const NotStarted := Failure(400, "Game not started")
  const ConnectionsFinished := Failure(403, "Connections already finished")
  const InternalError := Failure(500, "Internal server error")

  /** `getPuzzleData`: both halves of the current puzzle, or nothing. */
  function GetPuzzleData(current: CurrentPuzzle): (r: Option<PuzzleData>)
    ensures r.Some? <==> current.connections.Some? && current.crossword.Some?
    ensures r.Some? ==> r.value.groups == current.connections.value && r.value.crossword == current.crossword.value
  {
    if current.connections.None? || current.crossword.None? then None
    else Some(PuzzleData(current.connections.value, current.crossword.value))
  }

  // ---- Registration ----

  const MaxFieldLength := 50

  /** `value.length > 50`: a string counts its UTF-16 code units, an array its
      elements, and an object offers its own `length` field, if any; a number or
      a boolean has no `length`, and `undefined > 50` is false. */
  predicate TooLong(v: Option<Json>) {
    v.Some? &&
    match v.value
    case JStr(s) => JsLength(s) > MaxFieldLength
    case JArr(items) => |items| > MaxFieldLength
    case JObj(fields) => "length" in fields && Greater(fields["length"], MaxFieldLength)
    case _ => false
  }

  /** An object whose `length` field is too large is refused, like a long string. */
  lemma ObjectLengthRefused(states: seq<string>, locked: bool, handleTaken: bool)
    ensures var name := JObj(map["length" := JInt(51)]);
      var body := JObj(map["name" := name, "city" := JStr("TX"), "instagram" := JStr("a")]);
      RegisterRequest(body, states, locked, handleTaken) == Err(Failure(400, "Fields must be 50 characters or less"))
  {
  }

  /** `US_STATES.includes(city)`: strict equality, so only a string can match. */
  predicate IsState(v: Option<Json>, states: seq<string>) {
    v.Some? && v.value.JStr? && v.value.s in states
  }

  /** The fields `registerPlayer` receives. */
  datatype Registrant = Registrant(name: Json, city: string, instagram: Json)

  /** The checks of `POST /register` in their order; `locked` is the game-locked
      setting and `handleTaken` whether the handle is already registered (by the
      lookup or by the insert that returns no row). */
  function RegisterRequest(body: Json, states: seq<string>, locked: bool, handleTaken: bool): (r: Result<Registrant, Failure>)
    ensures r.Ok? ==> (r.value.city in states && Some(r.value.name) == Get(body, "name") &&
      Some(JStr(r.value.city)) == Get(body, "city") && Some(r.value.instagram) == Get(body, "instagram"))
  {
    var name := Get(body, "name");
    var city := Get(body, "city");
    var instagram := Get(body, "instagram");
    if !Truthy(name) || !Truthy(city) || !Truthy(instagram) then Err(Failure(400, "Name, city, and instagram are required"))
    else if TooLong(name) || TooLong(city) || TooLong(instagram) then Err(Failure(400, "Fields must be 50 characters or less"))
    else if !IsState(city, states) then Err(Failure(400, "Please select a valid state"))
    else if locked then Err(Failure(403, "Registration is closed right now"))
    else if handleTaken then Err(Failure(409, "This Instagram handle is already registered"))
    else Ok(Registrant(name.value, city.value.s, instagram.value))
  }

  /** A registration goes through exactly when all three fields are present and
      non-empty, none is longer than 50, the city is one of the states, the game
      is open and the handle is new. */
  lemma RegisterAcceptsIff(body: Json, states: seq<string>, locked: bool, handleTaken: bool)
    ensures var name := Get(body, "name"); var city := Get(body, "city"); var instagram := Get(body, "instagram");
      RegisterRequest(body, states, locked, handleTaken).Ok? <==>
        Truthy(name) && Truthy(city) && Truthy(instagram) &&
        !TooLong(name) && !TooLong(city) && !TooLong(instagram) &&
        IsState(city, states) && !locked && !handleTaken
  {
  }

  /** An accepted city is a state of 1 to 50 characters, and a name or handle
      given as a string has 1 to 50 characters. */
  lemma RegisteredFieldsBounded(body: Json, states: seq<string>, locked: bool, handleTaken: bool)
    requires RegisterRequest(body, states, locked, handleTaken).Ok?
    ensures var r := RegisterRequest(body, states, locked, handleTaken).value;
      r.city in states && 1 <= JsLength(r.city) <= MaxFieldLength &&
      (r.name.JStr? ==> 1 <= JsLength(r.name.s) <= MaxFieldLength) &&
      (r.instagram.JStr? ==> 1 <= JsLength(r.instagram.s) <= MaxFieldLength)
  {
  }

  /** The validation errors come before the lock and the handle lookup: a
      malformed request is refused with 400 whatever the setting or the table. */
  lemma RegisterValidatesFirst(body: Json, states: seq<string>, locked: bool, handleTaken: bool)
    requires !IsState(Get(body, "city"), states)
    ensures RegisterRequest(body, states, locked, handleTaken).Err?
    ensures RegisterRequest(body, states, locked, handleTaken).error.status == 400
    ensures RegisterRequest(body, states, locked, handleTaken) == RegisterRequest(body, states, false, false)
  {
  }

  /** `!session || !session.started_at`. */
  predicate Unstarted(session: Option<Session>) {
    session.None? || session.value.startedAt.None?
  }

  /** The `puzzleDone` test of the start route, which the guess route repeats for Connections. */
  predicate PuzzleDone(s: Session, kind: PuzzleType) {
    match kind
    case Connections => s.connectionsCompleted || s.connections.failed
    case Crossword => s.crosswordCompleted || s.crossword.failed == Some(true)
  }

  /** The session facts the engine keeps when it is only driven through these routes. */
  predicate Consistent(s: Session) {
    MistakesSane(s.connections) &&
    (s.connectionsCompleted <==> s.connections.completed) &&
    (s.connections.failed ==> s.failed) &&
    (s.failed ==> s.completedAt.Some?) &&
    (s.completedAt.Some? ==>
       s.startedAt.Some? && s.totalTimeMs.Some? && (s.failed || (s.connectionsCompleted && s.crosswordCompleted)))
  }

  lemma InitialConsistent()
    ensures Consistent(InitialSession)
  {
  }

  // ---- Word lists ----

  /** A JSON array's elements that `every((w) => typeof w === 'string' && w.length <= 100)` accepts. */
  predicate ShortStrings(items: seq<Json>) {
    forall i :: 0 <= i < |items| ==> items[i].JStr? && JsLength(items[i].s) <= 100
  }

  function Strings(items: seq<Json>): (r: seq<string>)
    requires ShortStrings(items)
    ensures |r| == |items| && forall i :: 0 <= i < |items| ==> r[i] == items[i].s && JsLength(r[i]) <= 100
  {
    seq(|items|, i requires 0 <= i < |items| => items[i].s)
  }

  /** The `words` of a guess: an array of exactly four strings of at most 100 code units. */
  function GuessWords(words: Option<Json>): (r: Result<seq<string>, Failure>)
    ensures r.Ok? <==> words.Some? && words.value.JArr? && |words.value.items| == 4 && ShortStrings(words.value.items)
    ensures r.Ok? ==> |r.value| == 4 && Strings(words.value.items) == r.value
  {
    if !(words.Some? && words.value.JArr? && |words.value.items| == 4) then Err(Failure(400, "Must guess exactly 4 words"))
    else if !ShortStrings(words.value.items) then Err(Failure(400, "Invalid word format"))
    else Ok(Strings(words.value.items))
  }

  /** `new Set(words.map((w) => w.toUpperCase()))`. */
  function UpperSet(ws: seq<string>): (r: set<string>)
    ensures forall u :: u in r <==> exists w :: w in ws && Upper(w) == u
  {
    set w | w in ws :: Upper(w)
  }

  /** `words.filter((w) => !solvedWordSet.has(w.toUpperCase()))`, keeping the order. */
  function WithoutSolved(ws: seq<string>, solved: set<string>): (r: seq<string>)
    ensures forall w :: w in r <==> w in ws && Upper(w) !in solved
    ensures |r| <= |ws|
  {
    if ws == [] then [] else
      var rest := WithoutSolved(ws[1..], solved);
      assert forall w :: w in ws <==> w == ws[0] || w in ws[1..];
      if Upper(ws[0]) in solved then rest else [ws[0]] + rest
  }

  /** The upper-cased words of the solved groups. */
  function SolvedWordSet(c: ConnectionsState): set<string> {
    UpperSet(AllWords(c.solvedGroups))
  }

  /** The puzzle's words that are not in a solved group, in puzzle order. */
  function UnsolvedWords(groups: seq<Group>, c: ConnectionsState): seq<string> {
    WithoutSolved(AllWords(groups), SolvedWordSet(c))
  }

  /** The unsolved words are the puzzle's words that no solved group holds, up to case. */
  lemma UnsolvedWordsExactly(groups: seq<Group>, c: ConnectionsState, w: string)
    ensures w in UnsolvedWords(groups, c) <==>
      (exists g :: g in groups && w in g.words) &&
      !(exists g, v :: g in c.solvedGroups && v in g.words && Upper(v) == Upper(w))
  {
  }

  /** The common test of the start and reorder routes: the same length, as many
      distinct upper-cased words, and every expected word among the candidate's. */
  predicate Covers(candidate: seq<string>, expected: seq<string>) {
    |candidate| == |expected| &&
    |UpperSet(candidate)| == |UpperSet(expected)| &&
    forall u :: u in UpperSet(expected) ==> u in UpperSet(candidate)
  }

  lemma SubsetSameSizeEqual(a: set<string>, b: set<string>)
    requires a <= b && |a| == |b|
    ensures a == b
  {
    if a != b {
      var x :| x in b && x !in a;
      assert a <= b - {x};
      assert |b - {x}| == |b| - 1;
      SubsetSize(a, b - {x});
    }
  }

  lemma {:induction false} SubsetSize(a: set<string>, b: set<string>)
    requires a <= b
    ensures |a| <= |b|
    decreases |b|
  {
    if a != {} {
      var x :| x in a;
      SubsetSize(a - {x}, b - {x});
    }
  }

  /** `Covers` means: the same length and the same words up to case. */
  lemma CoversIff(candidate: seq<string>, expected: seq<string>)
    ensures Covers(candidate, expected) <==>
      |candidate| == |expected| && UpperSet(candidate) == UpperSet(expected)
  {
    if Covers(candidate, expected) {
      SubsetSameSizeEqual(UpperSet(expected), UpperSet(candidate));
    }
  }

  /** The stored order, minus words that have since been solved. */
  function StoredOrder(c: ConnectionsState): seq<string> {
    WithoutSolved(if c.wordOrder.Some? then c.wordOrder.value else [], SolvedWordSet(c))
  }

  predicate HasValidStoredOrder(groups: seq<Group>, c: ConnectionsState) {
    Covers(StoredOrder(c), UnsolvedWords(groups, c))
  }

  /** The words a player sees: the stored order when it still covers the unsolved
      words, a fresh shuffle of them otherwise. */
  function WordsForPlayer(groups: seq<Group>, c: ConnectionsState, draws: seq<nat>): seq<string>
    requires |draws| >= |UnsolvedWords(groups, c)| && ValidDraws(draws)
  {
    if HasValidStoredOrder(groups, c) then StoredOrder(c) else Shuffled(UnsolvedWords(groups, c), draws)
  }

  /** A player is always shown exactly the unsolved words, up to case, and a new
      order is a rearrangement of them. */
  lemma WordsForPlayerAreUnsolved(groups: seq<Group>, c: ConnectionsState, draws: seq<nat>)
    requires |draws| >= |UnsolvedWords(groups, c)| && ValidDraws(draws)
    ensures var words := WordsForPlayer(groups, c, draws);
      |words| == |UnsolvedWords(groups, c)| && UpperSet(words) == UpperSet(UnsolvedWords(groups, c))
    ensures !HasValidStoredOrder(groups, c) ==>
      multiset(WordsForPlayer(groups, c, draws)) == multiset(UnsolvedWords(groups, c))
  {
    var unsolved := UnsolvedWords(groups, c);
    if HasValidStoredOrder(groups, c) {
      CoversIff(StoredOrder(c), unsolved);
    } else {
      ShuffledPermutes(unsolved, draws);
      var words := Shuffled(unsolved, draws);
      forall u ensures u in UpperSet(words) <==> u in UpperSet(unsolved) {
        forall w | w in words ensures w in unsolved {
          assert w in multiset(words);
        }
        forall w | w in unsolved ensures w in words {
          assert w in multiset(unsolved);
        }
      }
    }
  }

  // ---- start-puzzle ----

  /** `puzzle_type`, which must be one of the two literal strings. */
  function ParsePuzzleType(v: Option<Json>): (r: Option<PuzzleType>)
    ensures r == Some(Connections) <==> v == Some(JStr("connections"))
    ensures r == Some(Crossword) <==> v == Some(JStr("crossword"))
  {
    if v == Some(JStr("connections")) then Some(Connections)
    else if v == Some(JStr("crossword")) then Some(Crossword)
    else None
  }

  /** A clue as sent to players: no `answer`. */
  datatype PublicClue = PublicClue(number: int, clue: string, row: int, col: int, direction: Direction)

  function PublicClues(clues: seq<Clue>): (r: seq<PublicClue>)
    ensures |r| == |clues|
    ensures forall i :: 0 <= i < |clues| ==>
      r[i] == PublicClue(clues[i].number, clues[i].clue, clues[i].row, clues[i].col, clues[i].direction)
  {
    seq(|clues|, i requires 0 <= i < |clues| =>
      PublicClue(clues[i].number, clues[i].clue, clues[i].row, clues[i].col, clues[i].direction))
  }

  /** The empty grid sent to players: black cells stay `null`, letters become ''. */
  function MaskGrid(g: Grid): (r: Grid)
    ensures |r| == |g| && forall i :: 0 <= i < |g| ==> |r[i]| == |g[i]|
  {
    seq(|g|, i requires 0 <= i < |g| => seq(|g[i]|, j requires 0 <= j < |g[i]| => if g[i][j].None? then None else Some("")))
  }

  /** The masked grid keeps the shape and the black cells and reveals no letter. */
  lemma MaskGridRevealsNothing(g: Grid)
    ensures var m := MaskGrid(g);
      forall r, c :: 0 <= r < |g| && 0 <= c < |g[r]| ==>
        (m[r][c].None? <==> g[r][c].None?) && (m[r][c].Some? ==> m[r][c].value == "")
  {
  }

  datatype StartView =
    | ConnectionsView(words: seq<string>, numGroups: int)
    | CrosswordView(size: int, grid: Grid, across: seq<PublicClue>, down: seq<PublicClue>)

  datatype StartReply = StartReply(kind: PuzzleType, startedAt: Option<int>, view: StartView)

  /** The session the start route leaves: the clock starts unless the chosen puzzle is done. */
  function StartSession(s: Session, kind: PuzzleType, now: int): Session {
    if PuzzleDone(s, kind) then s else Started(s, kind, now)
  }

  /** The view sent by the start route for the session `s`. */
  function StartViewOf(kind: PuzzleType, data: PuzzleData, s: Session, draws: seq<nat>): StartView
    requires |draws| >= |UnsolvedWords(data.groups, s.connections)| && ValidDraws(draws)
  {
    match kind
    case Connections => ConnectionsView(WordsForPlayer(data.groups, s.connections, draws), |data.groups|)
    case Crossword =>
      CrosswordView(data.crossword.size, MaskGrid(data.crossword.grid),
                    PublicClues(data.crossword.across), PublicClues(data.crossword.down))
  }

  /** Starting a puzzle keeps the session consistent and starts the clock at most once. */
  lemma StartKeepsConsistent(s: Session, kind: PuzzleType, now: int)
    requires Consistent(s)
    ensures Consistent(StartSession(s, kind, now))
    ensures StartSession(s, kind, now).startedAt == (if s.startedAt.None? && !PuzzleDone(s, kind) then Some(now) else s.startedAt)
  {
  }

  /** A first visit to a finished puzzle shows it without starting the clock. */
  lemma DonePuzzleDoesNotStartClock(s: Session, kind: PuzzleType, now: int)
    requires PuzzleDone(s, kind)
    ensures StartSession(s, kind, now) == s
  {
  }

  /** `POST /start-puzzle`. `existing` is the player's row or `null`; the row is
      created only once the request and the puzzle have been checked.
      `orderToSave` is the order passed to `updateConnectionsWordOrder`. */
  method HandleStartPuzzle(body: Json, current: CurrentPuzzle, existing: SessionRow?, draws: seq<nat>, now: int)
    returns (row: SessionRow?, reply: Result<StartReply, Failure>, orderToSave: Option<seq<string>>)
    requires ValidDraws(draws)
    requires current.connections.Some? && existing != null ==>
      |draws| >= |UnsolvedWords(current.connections.value, existing.connectionsState)|
    requires current.connections.Some? && existing == null ==>
      |draws| >= |UnsolvedWords(current.connections.value, InitialSession.connections)|
    modifies existing
    ensures var kind := ParsePuzzleType(Get(body, "puzzle_type"));
      var data := GetPuzzleData(current);
      if kind.None? then reply == Err(Failure(400, "Invalid puzzle_type")) && row == existing && orderToSave.None?
      else if data.None? then reply == Err(NoPuzzle) && row == existing && orderToSave.None?
      else
        var s0 := if existing == null then InitialSession else old(existing.Value());
        var s1 := StartSession(s0, kind.value, now);
        row != null && (existing != null ==> row == existing) && (existing == null ==> fresh(row)) &&
        row.Value() == s1 &&
        |draws| >= |UnsolvedWords(data.value.groups, s1.connections)| &&
        reply == Ok(StartReply(kind.value, s1.startedAt, StartViewOf(kind.value, data.value, s1, draws))) &&
        orderToSave == (if kind.value == Connections && !HasValidStoredOrder(data.value.groups, s1.connections)
                        then Some(WordsForPlayer(data.value.groups, s1.connections, draws)) else None)
  {
    var kind := ParsePuzzleType(Get(body, "puzzle_type"));
    if kind.None? {
      return existing, Err(Failure(400, "Invalid puzzle_type")), None;
    }
    var data := GetPuzzleData(current);
    if data.None? {
      return existing, Err(NoPuzzle), None;
    }
    var session := GetOrCreateSession(existing);
    var s := session.Value();
    if !PuzzleDone(s, kind.value) {
      s := session.StartPuzzle(kind.value, now);
    }
    orderToSave := None;
    var view: StartView;
    if kind.value == Connections {
      var unsolved := UnsolvedWords(data.value.groups, s.connections);
      var words: seq<string>;
      if HasValidStoredOrder(data.value.groups, s.connections) {
        words := StoredOrder(s.connections);
      } else {
        var a := new string[|unsolved|](i requires 0 <= i < |unsolved| => unsolved[i]);
        assert a[..] == unsolved;
        FisherYates(a, draws);
        words := a[..];
        orderToSave := Some(words);
      }
      view := ConnectionsView(words, |data.value.groups|);
    } else {
      var cw := data.value.crossword;
      view := CrosswordView(cw.size, MaskGrid(cw.grid), PublicClues(cw.across), PublicClues(cw.down));
    }
    row := session;
    reply := Ok(StartReply(kind.value, s.startedAt, view));
  }

  // ---- connections/guess ----

  /** `POST /connections/guess`, checked in this order: body, puzzle, started, finished. */
  function GuessRoute(body: Json, current: CurrentPuzzle, session: Option<Session>, now: int): Outcome<GuessResponse> {
    var words := GuessWords(Get(body, "words"));
    var data := GetPuzzleData(current);
    if words.Err? then Outcome(session, Err(words.error))
    else if data.None? then Outcome(session, Err(NoPuzzle))
    else if Unstarted(session) then Outcome(session, Err(NotStarted))
    else if PuzzleDone(session.value, Connections) then Outcome(session, Err(ConnectionsFinished))
    else
      var o := GuessStep(session.value, data.value.groups, words.value, now);
      Outcome(Some(o.session), Ok(o.response))
  }

  /** A guess reaches the engine exactly when the body, the puzzle and the session
      allow it; a rejected guess changes nothing. */
  lemma GuessRouteAccepts(body: Json, current: CurrentPuzzle, session: Option<Session>, now: int)
    ensures var o := GuessRoute(body, current, session, now);
      (o.reply.Ok? <==> GuessWords(Get(body, "words")).Ok? && GetPuzzleData(current).Some? &&
                        !Unstarted(session) && !PuzzleDone(session.value, Connections)) &&
      (o.reply.Err? ==> o.session == session) &&
      (o.reply.Ok? ==> o.session == Some(GuessStep(session.value, current.connections.value,
                                                   GuessWords(Get(body, "words")).value, now).session))
  {
  }

  lemma GuessKeepsConsistent(body: Json, current: CurrentPuzzle, s: Session, now: int)
    requires Consistent(s)
    ensures var o := GuessRoute(body, current, Some(s), now);
      o.session.Some? && Consistent(o.session.value)
  {
  }

  method HandleGuess(body: Json, current: CurrentPuzzle, row: SessionRow?, now: int)
    returns (reply: Result<GuessResponse, Failure>)
    modifies row
    ensures row == null ==> reply == GuessRoute(body, current, None, now).reply
    ensures row != null ==> GuessRoute(body, current, Some(old(row.Value())), now) == Outcome(Some(row.Value()), reply)
  {
    var words := GuessWords(Get(body, "words"));
    if words.Err? {
      return Err(words.error);
    }
    var data := GetPuzzleData(current);
    if data.None? {
      return Err(NoPuzzle);
    }
    if row == null || row.startedAt.None? {
      return Err(NotStarted);
    }
    if row.connectionsCompleted || row.connectionsState.failed {
      return Err(ConnectionsFinished);
    }
    var response := row.ProcessConnectionsGuess(data.value.groups, words.value, now);
    reply := Ok(response);
  }

  // ---- connections/reorder ----

  /** `POST /connections/reorder`: the order to store, when it covers the unsolved words. */
  function ReorderRoute(body: Json, current: CurrentPuzzle, session: Option<Session>): (r: Result<seq<string>, Failure>)
  {
    var words := Get(body, "words");
    var data := GetPuzzleData(current);
    if !(words.Some? && words.value.JArr? && ShortStrings(words.value.items)) then Err(Failure(400, "Invalid words format"))
    else if data.None? then Err(NoPuzzle)
    else if Unstarted(session) then Err(NotStarted)
    else if PuzzleDone(session.value, Connections) then Err(ConnectionsFinished)
    else
      var order := Strings(words.value.items);
      if !Covers(order, UnsolvedWords(data.value.groups, session.value.connections)) then
        Err(Failure(400, "Words do not match current unsolved set"))
      else Ok(order)
  }

  /** An accepted order is the unsolved words again, up to case, of the same length. */
  lemma ReorderAcceptedIff(body: Json, current: CurrentPuzzle, s: Session)
    requires GetPuzzleData(current).Some? && s.startedAt.Some? && !PuzzleDone(s, Connections)
    requires Get(body, "words").Some? && Get(body, "words").value.JArr? && ShortStrings(Get(body, "words").value.items)
    ensures var order := Strings(Get(body, "words").value.items);
      var expected := UnsolvedWords(current.connections.value, s.connections);
      ReorderRoute(body, current, Some(s)).Ok? <==> |order| == |expected| && UpperSet(order) == UpperSet(expected)
  {
    CoversIff(Strings(Get(body, "words").value.items), UnsolvedWords(current.connections.value, s.connections));
  }

  // ---- crossword/submit ----

  /** `POST /crossword/submit`, checked in this order: grid, started, solved,
      failed, puzzle. The body's `grid` must be an array, whatever its elements.
      A thrown error answers 500 and keeps the writes made before it. */
  function SubmitRoute(body: Json, current: CurrentPuzzle, session: Option<Session>, now: int): Outcome<SubmitResponse> {
    var grid := Get(body, "grid");
    var data := GetPuzzleData(current);
    if !(grid.Some? && grid.value.JArr?) then Outcome(session, Err(Failure(400, "Invalid grid format")))
    else if Unstarted(session) then Outcome(session, Err(NotStarted))
    else if session.value.crosswordCompleted then Outcome(session, Err(Failure(403, "Crossword already completed")))
    else if session.value.crossword.failed == Some(true) then Outcome(session, Err(Failure(403, "No attempts remaining")))
    else if data.None? then Outcome(session, Err(NoPuzzle))
    else
      var o := SubmitStep(session.value, data.value.crossword, grid.value.items, now);
      if o.response.None? then Outcome(Some(o.session), Err(InternalError))
      else Outcome(Some(o.session), Ok(o.response.value))
  }

  /** On a consistent session the submit route never reaches the failing read of
      a missing row: its only 500 comes from a letter cell that cannot be read,
      which leaves the session as it was. The session stays consistent. */
  lemma SubmitNeverFails(body: Json, current: CurrentPuzzle, s: Session, now: int)
    requires Consistent(s)
    ensures var o := SubmitRoute(body, current, Some(s), now);
      o.session.Some? && Consistent(o.session.value) &&
      (o.reply == Err(InternalError) ==>
         o.session == Some(s) && !Readable(current.crossword.value.grid, Get(body, "grid").value.items))
  {
  }

  /** A grid of the declared type, rows of strings or `null`, is never refused with 500. */
  lemma DeclaredGridNeverFails(items: seq<Json>, current: CurrentPuzzle, s: Session, now: int)
    requires Consistent(s)
    requires forall r :: 0 <= r < |items| ==>
      items[r].JArr? && forall c :: 0 <= c < |items[r].items| ==> items[r].items[c].JStr? || items[r].items[c].JNull?
    ensures SubmitRoute(JObj(map["grid" := JArr(items)]), current, Some(s), now).reply != Err(InternalError)
  {
    if GetPuzzleData(current).Some? {
      StringCellsReadable(current.crossword.value.grid, items);
    }
  }

  const SampleAnswer: Grid := [[Some("H"), Some("I")]]

  /** A row sent as a string is read letter by letter, so `["hi"]` solves a row `H`, `I`. */
  lemma StringRowGraded()
    ensures Readable(SampleAnswer, [JStr("hi")]) && WrongCells(SampleAnswer, [JStr("hi")]) == []
  {
    assert Index(JStr("hi"), 0) == Some(JStr("h")) && Index(JStr("hi"), 1) == Some(JStr("i"));
    assert Upper("h") == "H" && Upper("i") == "I" && Upper("H") == "H" && Upper("I") == "I";
    assert PlayerCell([JStr("hi")], 0, 0) == Some("H");
    assert PlayerCell([JStr("hi")], 0, 1) == Some("I");
    NoWrongCellsIff(SampleAnswer, [JStr("hi")]);
  }

  /** A number in a letter cell makes the read throw: the reply is 500 and the session is unchanged. */
  lemma NumberCellThrows(s: Session, now: int)
    requires s.startedAt.Some? && !s.crosswordCompleted && s.crossword.failed != Some(true)
    ensures var current := CurrentPuzzle(Some([]), Some(CrosswordData(2, SampleAnswer, [], [])));
      SubmitRoute(JObj(map["grid" := JArr([JArr([JInt(7), JStr("I")])])]), current, Some(s), now) ==
        Outcome(Some(s), Err(InternalError))
  {
    var player := [JArr([JInt(7), JStr("I")])];
    assert PlayerCell(player, 0, 0).None?;
    assert !Readable(SampleAnswer, player);
  }

  method HandleSubmit(body: Json, current: CurrentPuzzle, row: SessionRow?, now: int)
    returns (reply: Result<SubmitResponse, Failure>)
    modifies row
    ensures row == null ==> reply == SubmitRoute(body, current, None, now).reply
    ensures row != null ==> SubmitRoute(body, current, Some(old(row.Value())), now) == Outcome(Some(row.Value()), reply)
  {
    var grid := Get(body, "grid");
    if !(grid.Some? && grid.value.JArr?) {
      return Err(Failure(400, "Invalid grid format"));
    }
    if row == null || row.startedAt.None? {
      return Err(NotStarted);
    }
    if row.crosswordCompleted {
      return Err(Failure(403, "Crossword already completed"));
    }
    if row.crosswordState.failed == Some(true) {
      return Err(Failure(403, "No attempts remaining"));
    }
    var data := GetPuzzleData(current);
    if data.None? {
      return Err(NoPuzzle);
    }
    var response := row.SubmitCrossword(data.value.crossword, grid.value.items, now);
    if response.None? {
      return Err(InternalError);
    }
    reply := Ok(response.value);
  }

  // ---- crossword/give-up ----

  datatype GiveUpReply = GiveUpReply(gaveUp: bool, totalTimeMs: Option<int>)

  /** `POST /crossword/give-up`: refused before the start and after the finish. */
  function GiveUpRoute(session: Option<Session>, now: int): Outcome<GiveUpReply> {
    if Unstarted(session) then Outcome(session, Err(NotStarted))
    else if session.value.completedAt.Some? then Outcome(session, Err(Failure(400, "Game already finished")))
    else
      var s := GiveUpStep(session.value, now);
      Outcome(Some(s), Ok(GiveUpReply(true, s.totalTimeMs)))
  }

  lemma GiveUpKeepsConsistent(s: Session, now: int)
    requires Consistent(s)
    ensures var o := GiveUpRoute(Some(s), now);
      o.session.Some? && Consistent(o.session.value) &&
      (o.reply.Ok? <==> s.startedAt.Some? && s.completedAt.None?)
  {
  }

  /** The give-up guard looks only at `completed_at`: a player who has solved the
      crossword but not finished Connections can still give it up, which marks
      the crossword as not completed and the whole session as failed. */
  lemma GiveUpAfterSolvingCrossword(s: Session, now: int)
    requires s.startedAt.Some? && s.completedAt.None? && s.crosswordCompleted && s.crossword.completed
    ensures var o := GiveUpRoute(Some(s), now);
      o.reply.Ok? && o.session.value.failed && o.session.value.crosswordCompleted &&
      !o.session.value.crossword.completed && o.session.value.crossword.failed == Some(true)
  {
  }

  method HandleGiveUp(row: SessionRow?, now: int) returns (reply: Result<GiveUpReply, Failure>)
    modifies row
    ensures row == null ==> reply == GiveUpRoute(None, now).reply
    ensures row != null ==> GiveUpRoute(Some(old(row.Value())), now) == Outcome(Some(row.Value()), reply)
  {
    if row == null || row.startedAt.None? {
      return Err(NotStarted);
    }
    if row.completedAt.Some? {
      return Err(Failure(400, "Game already finished"));
    }
    var updated := row.GiveUpCrossword(now);
    reply := Ok(GiveUpReply(true, updated.totalTimeMs));
  }

  // ---- The failure stamp is not write-once ----

  const SampleGroups: seq<Group> := [Group("FRUIT", ["APPLE", "PEAR", "PLUM", "FIG"], 1, "#F9E300")]

  function MissBody(): Json {
    JObj(map["words" := JArr([JStr("A"), JStr("B"), JStr("C"), JStr("D")])])
  }

  const SampleCurrent: CurrentPuzzle := CurrentPuzzle(Some(SampleGroups), Some(CrosswordData(5, [], [], [])))

  /** The sample wrong guess reaches the engine and costs one mistake. */
  lemma SampleMiss(s: Session, now: int)
    requires s.startedAt.Some? && !s.connectionsCompleted && !ConnectionsOver(s.connections)
    requires s.connections.solvedGroups == []
    ensures var o := GuessRoute(MissBody(), SampleCurrent, Some(s), now);
      var m := s.connections.mistakes + 1;
      o.reply.Ok? && o.session == Some(GuessStep(s, SampleGroups, ["A", "B", "C", "D"], now).session) &&
      !o.reply.value.correct && o.session.value.connections.mistakes == m && o.session.value.startedAt == s.startedAt &&
      o.session.value.connections.solvedGroups == [] && !o.session.value.connectionsCompleted &&
      (m < MaxConnectionsMistakes ==> o.session.value == s.(connections := o.session.value.connections)) &&
      (m >= MaxConnectionsMistakes ==> o.session.value.completedAt == Some(now) &&
                                       o.session.value.totalTimeMs == Elapsed(s.startedAt, now))
  {
    SampleParse();
    SampleNoMatch(Titles(s.connections.solvedGroups));
  }

  lemma SampleParse()
    ensures GuessWords(Get(MissBody(), "words")) == Ok(["A", "B", "C", "D"])
  {
    var items := [JStr("A"), JStr("B"), JStr("C"), JStr("D")];
    assert Get(MissBody(), "words") == Some(JArr(items));
    assert ShortStrings(items);
    var str := Strings(items);
    assert str == ["A", "B", "C", "D"] by {
      assert str[0] == "A" && str[1] == "B" && str[2] == "C" && str[3] == "D";
    }
  }

  lemma SampleNoMatch(solved: set<string>)
    ensures FindMatch(SampleGroups, solved, ["A", "B", "C", "D"]).None?
  {
    var w := ["A", "B", "C", "D"];
    var fruit := SampleGroups[0].words;
    forall i | 0 <= i < 4 ensures Upper(w[i]) == w[i] && Upper(fruit[i]) == fruit[i] {
      UpperNoLower(w[i]);
      UpperNoLower(fruit[i]);
    }
    assert UpperAll(w) == w;
    assert UpperAll(fruit) == fruit;
    assert "A" in multiset(w);
    assert "A" !in multiset(fruit);
    assert !Matches(SampleGroups[0], solved, w);
  }

  /** As written: a player starts, gives up the crossword at 100 ms, then makes
      four wrong Connections guesses. Every request passes its route's guards,
      and the fourth guess moves the finish from 100 to 500 ms. */
  lemma FailureStampOverwritten()
    ensures var s0 := StartSession(InitialSession, Crossword, 0);
      var g := GiveUpRoute(Some(s0), 100);
      var m1 := GuessRoute(MissBody(), SampleCurrent, g.session, 200);
      var m2 := GuessRoute(MissBody(), SampleCurrent, m1.session, 300);
      var m3 := GuessRoute(MissBody(), SampleCurrent, m2.session, 400);
      var m4 := GuessRoute(MissBody(), SampleCurrent, m3.session, 500);
      g.reply.Ok? && m1.reply.Ok? && m2.reply.Ok? && m3.reply.Ok? && m4.reply.Ok? &&
      g.session.value.completedAt == Some(100) && g.session.value.totalTimeMs == Some(100) &&
      m4.session.value.completedAt == Some(500) && m4.session.value.totalTimeMs == Some(500)
  {
    var s0 := StartSession(InitialSession, Crossword, 0);
    assert s0.startedAt == Some(0);
    var g := GiveUpRoute(Some(s0), 100);
    var s1 := g.session.value;
    SampleMiss(s1, 200);
    var s2 := GuessRoute(MissBody(), SampleCurrent, Some(s1), 200).session.value;
    SampleMiss(s2, 300);
    var s3 := GuessRoute(MissBody(), SampleCurrent, Some(s2), 300).session.value;
    SampleMiss(s3, 400);
    var s4 := GuessRoute(MissBody(), SampleCurrent, Some(s3), 400).session.value;
    assert s4.connections.mistakes == 3;
    SampleMiss(s4, 500);
  }

  /** With the guarded failure stamp, the same four guesses leave the give-up time in place. */
  lemma GuardedStampSurvives(s: Session, now: int)
    requires s.completedAt.Some?
    ensures GuessStepGuarded(s, SampleGroups, ["A", "B", "C", "D"], now).session.completedAt == s.completedAt
  {
    GuardedGuessKeepsStamp(s, SampleGroups, ["A", "B", "C", "D"], now);
  }
}
