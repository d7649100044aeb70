/** The normalising validators of `routes/admin.ts`. A puzzle half arrives as
    arbitrary JSON; the validator returns the cleaned value or the first error it
    throws, checking in the source's order. Errors are values of `Problem`;
    `Message` renders the text the route sends back. */
module AdminValidation {
  import opened Wrappers
  import opened Text
  import opened Json
  import opened Puzzle

  // ---- Small coercions ----

  /** `String(v || '').trim()`. */
  function CleanText(v: Option<Json>): string {
    Trim(StringOr(v))
  }

  /** `String(v || '').trim().toUpperCase()`. */
  function CleanWord(v: Option<Json>): string {
    Upper(Trim(StringOr(v)))
  }

  /** `Number.isInteger(Number(v))` with the value in `lo..hi`. */
  predicate IntegerIn(v: Option<Json>, lo: int, hi: int) {
    ToNumber(v).Integer? && lo <= ToNumber(v).value <= hi
  }

  // ---- Errors ----

  /** The errors the validators throw; positions are zero-based here and printed
      one-based. */
  datatype Problem =
    | GroupCount
    | GroupFormat(group: nat)
    | GroupLabel(group: nat)
    | GroupWordCount(group: nat)
    | GroupWord(group: nat, word: nat)
    | GroupDifficulty(group: nat)
    | GroupColor(group: nat)
    | RepeatedWord(repeated: string)
    | SizeNotFive
    | GridRowCount
    | GridColumns(row: nat)
    | GridCell(row: nat, col: nat)
    | CluesShape
    | ClueFormat(d: Direction, clue: nat)
    | ClueNumber(d: Direction, clue: nat)
    | ClueCoordinates(d: Direction, clue: nat)
    | ClueText(d: Direction, clue: nat)
    | ClueDirection(d: Direction, clue: nat)
    | ClueAnswer(d: Direction, clue: nat)
    | NoClues

  function Ordinal(index: nat): string {
    NatToString(index + 1)
  }

  function DirectionName(d: Direction): string {
    match d
    case Across => "across"
    case Down => "down"
  }

  /** The `Error` message thrown for each problem. */
  function Message(p: Problem): string {
    match p
    case GroupCount => "connections_data.groups must contain exactly 4 groups"
    case GroupFormat(g) => "Group " + Ordinal(g) + " has invalid format"
    case GroupLabel(g) => "Group " + Ordinal(g) + " label must be 1-80 characters"
    case GroupWordCount(g) => "Group " + Ordinal(g) + " must have exactly 4 words"
    case GroupWord(g, w) => "Group " + Ordinal(g) + " word " + Ordinal(w) + " must be 1-40 characters"
    case GroupDifficulty(g) => "Group " + Ordinal(g) + " difficulty must be 1-4"
    case GroupColor(g) => "Group " + Ordinal(g) + " color is too long"
    case RepeatedWord(w) => "Duplicate connections word: " + w
    case SizeNotFive => "crossword_data.size must be 5"
    case GridRowCount => "crossword_data.grid must have 5 rows"
    case GridColumns(r) => "Grid row " + Ordinal(r) + " must have 5 columns"
    case GridCell(r, c) => "Grid cell (" + Ordinal(r) + ", " + Ordinal(c) + ") must be null or a single letter"
    case CluesShape => "crossword_data.clues must include across and down arrays"
    case ClueFormat(d, i) => DirectionName(d) + " clue " + Ordinal(i) + " has invalid format"
    case ClueNumber(d, i) => DirectionName(d) + " clue " + Ordinal(i) + " must have a positive number"
    case ClueCoordinates(d, i) => DirectionName(d) + " clue " + Ordinal(i) + " has invalid coordinates"
    case ClueText(d, i) => DirectionName(d) + " clue " + Ordinal(i) + " text must be 1-200 characters"
    case ClueDirection(d, i) => DirectionName(d) + " clue " + Ordinal(i) + " has incorrect direction"
    case ClueAnswer(d, i) => DirectionName(d) + " clue " + Ordinal(i) + " answer is invalid"
    case NoClues => "Crossword must have at least one clue"
  }

  // ---- validateConnectionsData ----

  /** `rawGroup.words.map(...)` over the words from position `base` on, failing
      at the first word that is blank or too long once trimmed and upper-cased. */
  function CleanWords(items: seq<Json>, group: nat, base: nat): (r: Result<seq<string>, Problem>)
    ensures r.Ok? ==> (|r.value| == |items| &&
      forall k :: 0 <= k < |items| ==> r.value[k] == CleanWord(Some(items[k])) && 1 <= JsLength(r.value[k]) <= 40)
    ensures r.Err? ==> r.error.GroupWord? && r.error.group == group
  {
    if items == [] then Ok([])
    else
      var cleaned := CleanWord(Some(items[0]));
      if cleaned == [] || JsLength(cleaned) > 40 then Err(GroupWord(group, base))
      else
        match CleanWords(items[1..], group, base + 1)
        case Err(e) => Err(e)
        case Ok(rest) => Ok([cleaned] + rest)
  }

  /** One element of `input.groups.map(...)`. */
  function CleanGroup(raw: Json, index: nat): (r: Result<Group, Problem>)
  {
    if !IsObject(Some(raw)) then Err(GroupFormat(index))
    else
      var title := CleanText(Get(raw, "label"));
      var words := Get(raw, "words");
      if title == [] || JsLength(title) > 80 then Err(GroupLabel(index))
      else if !(words.Some? && words.value.JArr? && |words.value.items| == ConnectionsGroupSize) then
        Err(GroupWordCount(index))
      else
        match CleanWords(words.value.items, index, 0)
        case Err(e) => Err(e)
        case Ok(cleaned) =>
          var difficulty := Get(raw, "difficulty");
          var color := CleanText(Get(raw, "color"));
          if !IntegerIn(difficulty, 1, ConnectionsNumGroups) then Err(GroupDifficulty(index))
          else if JsLength(color) > 32 then Err(GroupColor(index))
          else Ok(Group(title, cleaned, ToNumber(difficulty).value, color))
  }

  /** `xs.map(f)` with an `f` that may throw, given the outcome of `f` on each
      element: the first error met, or else every value in order. */
  function Collect<T, E>(rs: seq<Result<T, E>>): (r: Result<seq<T>, E>)
    ensures r.Ok? <==> forall k :: 0 <= k < |rs| ==> rs[k].Ok?
    ensures r.Ok? ==> |r.value| == |rs| && forall k :: 0 <= k < |rs| ==> rs[k] == Ok(r.value[k])
  {
    if rs == [] then Ok([])
    else
      match rs[0]
      case Err(e) => Err(e)
      case Ok(v) =>
        assert forall k :: 1 <= k < |rs| ==> rs[k] == rs[1..][k - 1];
        match Collect(rs[1..])
        case Err(e) => Err(e)
        case Ok(tail) => Ok([v] + tail)
  }

  /** The error `Collect` reports is the one of the first element that fails. */
  lemma {:induction false} CollectFirstError<T, E>(rs: seq<Result<T, E>>)
    requires Collect(rs).Err?
    ensures exists k :: 0 <= k < |rs| && rs[k] == Err(Collect(rs).error) && forall j :: 0 <= j < k ==> rs[j].Ok?
  {
    if rs[0].Ok? {
      CollectFirstError(rs[1..]);
      var k :| 0 <= k < |rs[1..]| && rs[1..][k] == Err(Collect(rs[1..]).error) &&
        forall j :: 0 <= j < k ==> rs[1..][j].Ok?;
      assert rs[k + 1] == rs[1..][k];
      assert forall j :: 1 <= j < k + 1 ==> rs[j] == rs[1..][j - 1];
    }
  }

  lemma CollectAllOk<T, E>(rs: seq<Result<T, E>>, vs: seq<T>)
    requires |rs| == |vs| && forall k :: 0 <= k < |rs| ==> rs[k] == Ok(vs[k])
    ensures Collect(rs) == Ok(vs)
  {
    assert Collect(rs).value == vs;
  }

  /** What the `map` callback gives on each group. */
  function GroupOutcomes(items: seq<Json>): (rs: seq<Result<Group, Problem>>)
    ensures |rs| == |items| && forall k :: 0 <= k < |items| ==> rs[k] == CleanGroup(items[k], k)
  {
    seq(|items|, k requires 0 <= k < |items| => CleanGroup(items[k], k))
  }

  /** `input.groups.map(...)`. */
  function CleanGroups(items: seq<Json>): Result<seq<Group>, Problem>
  {
    Collect(GroupOutcomes(items))
  }

  /** The first word met that is already in `seen` or earlier in `ws`. */
  function FirstRepeatFrom(ws: seq<string>, seen: set<string>): Option<string>
  {
    if ws == [] then None
    else if ws[0] in seen then Some(ws[0])
    else FirstRepeatFrom(ws[1..], seen + {ws[0]})
  }

  function FirstRepeat(ws: seq<string>): Option<string> {
    FirstRepeatFrom(ws, {})
  }

  /** No repeat is found exactly when the words are distinct and none is in `seen`. */
  lemma {:induction false} FirstRepeatFromNone(ws: seq<string>, seen: set<string>)
    ensures FirstRepeatFrom(ws, seen).None? <==>
      (forall i :: 0 <= i < |ws| ==> ws[i] !in seen) && (forall i, j :: 0 <= i < j < |ws| ==> ws[i] != ws[j])
    decreases |ws|
  {
    if ws != [] {
      FirstRepeatFromNone(ws[1..], seen + {ws[0]});
      assert forall i :: 1 <= i < |ws| ==> ws[i] == ws[1..][i - 1];
    }
  }

  /** The loop over `normalizedGroups` with its `seen` set. */
  method FindDuplicateWord(groups: seq<Group>) returns (dup: Option<string>)
    ensures dup == FirstRepeat(AllWords(groups))
  {
    var seen: set<string> := {};
    var gi := 0;
    while gi < |groups|
      invariant 0 <= gi <= |groups|
      invariant FirstRepeat(AllWords(groups)) == FirstRepeatFrom(AllWords(groups[gi..]), seen)
    {
      var words := groups[gi].words;
      assert groups[gi..][0] == groups[gi] && groups[gi..][1..] == groups[gi + 1..];
      assert AllWords(groups[gi..]) == words[0..] + AllWords(groups[gi + 1..]);
      var wi := 0;
      while wi < |words|
        invariant 0 <= wi <= |words|
        invariant FirstRepeat(AllWords(groups)) == FirstRepeatFrom(words[wi..] + AllWords(groups[gi + 1..]), seen)
      {
        var word := words[wi];
        var rest := words[wi..] + AllWords(groups[gi + 1..]);
        assert rest[0] == word && rest[1..] == words[wi + 1..] + AllWords(groups[gi + 1..]);
        if word in seen {
          return Some(word);
        }
        seen := seen + {word};
        wi := wi + 1;
      }
      assert words[wi..] + AllWords(groups[gi + 1..]) == AllWords(groups[gi + 1..]);
      gi := gi + 1;
    }
    dup := None;
  }

  predicate GroupsShape(input: Json) {
    var groups := Get(input, "groups");
    IsObject(Some(input)) && groups.Some? && groups.value.JArr? && |groups.value.items| == ConnectionsNumGroups
  }

  /** `validateConnectionsData`, as a value. */
  function ConnectionsData(input: Json): (r: Result<seq<Group>, Problem>)
  {
    if !GroupsShape(input) then Err(GroupCount)
    else
      match CleanGroups(Get(input, "groups").value.items)
      case Err(e) => Err(e)
      case Ok(normalized) =>
        match FirstRepeat(AllWords(normalized))
        case Some(w) => Err(RepeatedWord(w))
        case None => Ok(normalized)
  }

  method ValidateConnectionsData(input: Json) returns (r: Result<seq<Group>, Problem>)
    ensures r == ConnectionsData(input)
  {
    if !GroupsShape(input) {
      return Err(GroupCount);
    }
    var normalized := CleanGroups(Get(input, "groups").value.items);
    if normalized.Err? {
      return Err(normalized.error);
    }
    var dup := FindDuplicateWord(normalized.value);
    if dup.Some? {
      return Err(RepeatedWord(dup.value));
    }
    r := Ok(normalized.value);
  }

  /** A group as the validator leaves it. */
  predicate CleanedGroup(g: Group) {
    g.title == Trim(g.title) && 1 <= JsLength(g.title) <= 80 &&
    |g.words| == ConnectionsGroupSize &&
    (forall k :: 0 <= k < |g.words| ==> g.words[k] == Upper(Trim(g.words[k])) && 1 <= JsLength(g.words[k]) <= 40) &&
    1 <= g.difficulty <= ConnectionsNumGroups &&
    g.color == Trim(g.color) && JsLength(g.color) <= 32
  }

  lemma CleanWordIsClean(v: Option<Json>)
    ensures CleanWord(v) == Upper(Trim(CleanWord(v)))
  {
    var t := Trim(StringOr(v));
    UpperTrimCommute(t);
    TrimIdempotent(StringOr(v));
    UpperIdempotent(t);
  }

  lemma CleanGroupIsClean(raw: Json, index: nat)
    requires CleanGroup(raw, index).Ok?
    ensures CleanedGroup(CleanGroup(raw, index).value)
  {
    TrimIdempotent(StringOr(Get(raw, "label")));
    TrimIdempotent(StringOr(Get(raw, "color")));
    var words := Get(raw, "words").value.items;
    forall k | 0 <= k < |words| {
      CleanWordIsClean(Some(words[k]));
    }
  }

  /** An accepted puzzle has exactly four groups of four cleaned words, labels and
      colours trimmed, difficulties in 1..4, and no word twice anywhere. */
  lemma AcceptedConnections(input: Json)
    requires ConnectionsData(input).Ok?
    ensures var groups := ConnectionsData(input).value;
      |groups| == ConnectionsNumGroups &&
      (forall i :: 0 <= i < |groups| ==> CleanedGroup(groups[i])) &&
      (forall i, j :: 0 <= i < j < |AllWords(groups)| ==> AllWords(groups)[i] != AllWords(groups)[j])
  {
    var items := Get(input, "groups").value.items;
    var groups := ConnectionsData(input).value;
    forall i | 0 <= i < |groups| ensures CleanedGroup(groups[i]) {
      CleanGroupIsClean(items[i], i);
    }
    FirstRepeatFromNone(AllWords(groups), {});
  }

  /** Cleaned groups with a word twice are rejected as a repeat. */
  lemma RepeatRejected(input: Json)
    requires GroupsShape(input) && CleanGroups(Get(input, "groups").value.items).Ok?
    requires var ws := AllWords(CleanGroups(Get(input, "groups").value.items).value);
      exists i, j :: 0 <= i < j < |ws| && ws[i] == ws[j]
    ensures ConnectionsData(input).Err? && ConnectionsData(input).error.RepeatedWord?
  {
    FirstRepeatFromNone(AllWords(CleanGroups(Get(input, "groups").value.items).value), {});
  }

  // ---- Round trip ----

  function WordsJson(ws: seq<string>): (r: seq<Json>)
    ensures |r| == |ws| && forall k :: 0 <= k < |ws| ==> r[k] == JStr(ws[k])
  {
    seq(|ws|, k requires 0 <= k < |ws| => JStr(ws[k]))
  }

  /** A group as stored: the four keys the validator keeps. */
  function GroupJson(g: Group): Json {
    JObj(map["label" := JStr(g.title), "words" := JArr(WordsJson(g.words)),
             "difficulty" := JInt(g.difficulty), "color" := JStr(g.color)])
  }

  function GroupsJson(groups: seq<Group>): (r: seq<Json>)
    ensures |r| == |groups| && forall i :: 0 <= i < |groups| ==> r[i] == GroupJson(groups[i])
  {
    seq(|groups|, i requires 0 <= i < |groups| => GroupJson(groups[i]))
  }

  /** `{ groups: normalizedGroups }` as stored. */
  function ConnectionsJson(groups: seq<Group>): Json {
    JObj(map["groups" := JArr(GroupsJson(groups))])
  }

  lemma {:induction false} CleanWordsOfClean(ws: seq<string>, group: nat, base: nat)
    requires forall k :: 0 <= k < |ws| ==> ws[k] == Upper(Trim(ws[k])) && 1 <= JsLength(ws[k]) <= 40
    ensures CleanWords(WordsJson(ws), group, base) == Ok(ws)
    decreases |ws|
  {
    if ws != [] {
      assert WordsJson(ws)[1..] == WordsJson(ws[1..]);
      CleanWordsOfClean(ws[1..], group, base + 1);
      assert CleanWord(Some(WordsJson(ws)[0])) == ws[0];
      assert ws == [ws[0]] + ws[1..];
    }
  }

  /** The four keys of a stored group, read back. */
  lemma GroupJsonFields(g: Group)
    ensures var raw := GroupJson(g);
      IsObject(Some(raw)) && Get(raw, "label") == Some(JStr(g.title)) &&
      Get(raw, "words") == Some(JArr(WordsJson(g.words))) &&
      Get(raw, "difficulty") == Some(JInt(g.difficulty)) && Get(raw, "color") == Some(JStr(g.color))
  {
  }

  /** A group object whose four fields pass is cleaned to exactly those fields. */
  lemma CleanGroupAccepts(raw: Json, index: nat, g: Group)
    requires IsObject(Some(raw))
    requires CleanText(Get(raw, "label")) == g.title && 1 <= JsLength(g.title) <= 80
    requires Get(raw, "words").Some? && Get(raw, "words").value.JArr?
    requires |Get(raw, "words").value.items| == ConnectionsGroupSize
    requires CleanWords(Get(raw, "words").value.items, index, 0) == Ok(g.words)
    requires ToNumber(Get(raw, "difficulty")) == Integer(g.difficulty) && 1 <= g.difficulty <= ConnectionsNumGroups
    requires CleanText(Get(raw, "color")) == g.color && JsLength(g.color) <= 32
    ensures CleanGroup(raw, index) == Ok(g)
  {
  }

  lemma CleanGroupOfClean(g: Group, index: nat)
    requires CleanedGroup(g)
    ensures CleanGroup(GroupJson(g), index) == Ok(g)
  {
    GroupJsonFields(g);
    assert CleanText(Some(JStr(g.title))) == g.title;
    assert CleanText(Some(JStr(g.color))) == g.color;
    CleanWordsOfClean(g.words, index, 0);
    CleanGroupAccepts(GroupJson(g), index, g);
  }

  lemma CleanGroupsOfClean(groups: seq<Group>)
    requires forall i :: 0 <= i < |groups| ==> CleanedGroup(groups[i])
    ensures CleanGroups(GroupsJson(groups)) == Ok(groups)
  {
    var rs := GroupOutcomes(GroupsJson(groups));
    forall k | 0 <= k < |groups|
      ensures rs[k] == Ok(groups[k])
    {
      StoredGroupOutcome(groups, k);
    }
    CollectAllOk(rs, groups);
  }

  lemma StoredGroupOutcome(groups: seq<Group>, k: nat)
    requires k < |groups| && CleanedGroup(groups[k])
    ensures GroupOutcomes(GroupsJson(groups))[k] == Ok(groups[k])
  {
    assert GroupsJson(groups)[k] == GroupJson(groups[k]);
    CleanGroupOfClean(groups[k], k);
  }

  /** Validating the validator's own output gives it back unchanged. */
  lemma ConnectionsRoundTrip(input: Json)
    requires ConnectionsData(input).Ok?
    ensures ConnectionsData(ConnectionsJson(ConnectionsData(input).value)) == ConnectionsData(input)
  {
    AcceptedConnections(input);
    ConnectionsOfClean(ConnectionsData(input).value);
  }

  /** Four cleaned groups with distinct words, sent as a payload, are accepted unchanged. */
  lemma ConnectionsOfClean(groups: seq<Group>)
    requires |groups| == ConnectionsNumGroups
    requires forall i :: 0 <= i < |groups| ==> CleanedGroup(groups[i])
    requires forall i, j :: 0 <= i < j < |AllWords(groups)| ==> AllWords(groups)[i] != AllWords(groups)[j]
    ensures ConnectionsData(ConnectionsJson(groups)) == Ok(groups)
  {
    var payload := ConnectionsJson(groups);
    assert Get(payload, "groups") == Some(JArr(GroupsJson(groups)));
    assert GroupsShape(payload);
    CleanGroupsOfClean(groups);
    FirstRepeatFromNone(AllWords(groups), {});
  }

  // ---- validateCrosswordData ----

  /** One grid cell: `null` stays black, anything else must clean to one letter. */
  function CleanCell(cell: Json, r: nat, c: nat): (res: Result<Option<string>, Problem>)
    ensures res.Ok? && res.value.Some? ==> |res.value.value| == 1 && IsCapital(res.value.value[0])
    ensures (res.Ok? && res.value.None?) <==> cell.JNull?
    ensures res.Err? ==> res.error == GridCell(r, c)
  {
    if cell.JNull? then Ok(None)
    else
      var cleaned := CleanWord(Some(cell));
      if |cleaned| == 1 && IsCapital(cleaned[0]) then Ok(Some(cleaned))
      else Err(GridCell(r, c))
  }

  /** `row.map(...)` over the cells from column `base` on. */
  function CleanCells(cells: seq<Json>, r: nat, base: nat): (res: Result<seq<Option<string>>, Problem>)
    ensures res.Ok? ==> (|res.value| == |cells| &&
      forall k :: 0 <= k < |cells| ==> CleanCell(cells[k], r, base + k) == Ok(res.value[k]))
  {
    if cells == [] then Ok([])
    else
      match CleanCell(cells[0], r, base)
      case Err(e) => Err(e)
      case Ok(v) =>
        match CleanCells(cells[1..], r, base + 1)
        case Err(e) => Err(e)
        case Ok(rest) => Ok([v] + rest)
  }

  /** `input.grid.map(...)` over the rows from position `base` on. */
  function CleanRows(rows: seq<Json>, base: nat): (res: Result<Grid, Problem>)
    ensures res.Ok? ==> (|res.value| == |rows| &&
      forall k :: 0 <= k < |rows| ==>
        (rows[k].JArr? && |rows[k].items| == CrosswordSize && CleanCells(rows[k].items, base + k, 0) == Ok(res.value[k])))
  {
    if rows == [] then Ok([])
    else
      var row := rows[0];
      if !(row.JArr? && |row.items| == CrosswordSize) then Err(GridColumns(base))
      else
        match CleanCells(row.items, base, 0)
        case Err(e) => Err(e)
        case Ok(cells) =>
          match CleanRows(rows[1..], base + 1)
          case Err(e) => Err(e)
          case Ok(rest) => Ok([cells] + rest)
  }

  /** The optional answer: a string must clean to 1-5 capitals; anything else is dropped. */
  function CleanAnswer(v: Option<Json>, d: Direction, index: nat): (res: Result<Option<string>, Problem>)
    ensures res.Ok? && res.value.Some? ==> 1 <= |res.value.value| <= CrosswordSize && AllCapitals(res.value.value)
    ensures (res.Ok? && res.value.None?) <==> !(v.Some? && v.value.JStr?)
  {
    if !(v.Some? && v.value.JStr?) then Ok(None)
    else
      var answer := Upper(Trim(v.value.s));
      if answer == [] || |answer| > CrosswordSize || !AllCapitals(answer) then Err(ClueAnswer(d, index))
      else Ok(Some(answer))
  }

  /** One element of `normalizeClues(clues, direction)`. */
  function CleanClue(raw: Json, d: Direction, index: nat): (res: Result<Clue, Problem>)
  {
    if !IsObject(Some(raw)) then Err(ClueFormat(d, index))
    else
      var number := Get(raw, "number");
      var row := Get(raw, "row");
      var col := Get(raw, "col");
      var text := CleanText(Get(raw, "clue"));
      if !(ToNumber(number).Integer? && ToNumber(number).value >= 1) then Err(ClueNumber(d, index))
      else if !(IntegerIn(row, 0, CrosswordSize - 1) && IntegerIn(col, 0, CrosswordSize - 1)) then
        Err(ClueCoordinates(d, index))
      else if text == [] || JsLength(text) > 200 then Err(ClueText(d, index))
      else if Get(raw, "direction") != Some(JStr(DirectionName(d))) then Err(ClueDirection(d, index))
      else
        match CleanAnswer(Get(raw, "answer"), d, index)
        case Err(e) => Err(e)
        case Ok(answer) =>
          Ok(Clue(ToNumber(number).value, text, ToNumber(row).value, ToNumber(col).value, d, answer))
  }

  /** What the `map` callback of `normalizeClues` gives on each clue. */
  function ClueOutcomes(items: seq<Json>, d: Direction): (rs: seq<Result<Clue, Problem>>)
    ensures |rs| == |items| && forall k :: 0 <= k < |items| ==> rs[k] == CleanClue(items[k], d, k)
  {
    seq(|items|, k requires 0 <= k < |items| => CleanClue(items[k], d, k))
  }

  /** `normalizeClues(clues, direction)`. */
  function CleanClues(items: seq<Json>, d: Direction): Result<seq<Clue>, Problem>
  {
    Collect(ClueOutcomes(items, d))
  }

  predicate HasClueLists(clues: Option<Json>) {
    IsObject(clues) && Get(clues.value, "across").Some? && Get(clues.value, "across").value.JArr? &&
    Get(clues.value, "down").Some? && Get(clues.value, "down").value.JArr?
  }

  /** `validateCrosswordData`. */
  function CrosswordDataOf(input: Json): (res: Result<CrosswordData, Problem>)
  {
    var grid := Get(input, "grid");
    var clues := Get(input, "clues");
    if !(IsObject(Some(input)) && ToNumber(Get(input, "size")) == Integer(CrosswordSize)) then Err(SizeNotFive)
    else if !(grid.Some? && grid.value.JArr? && |grid.value.items| == CrosswordSize) then Err(GridRowCount)
    else
      match CleanRows(grid.value.items, 0)
      case Err(e) => Err(e)
      case Ok(rows) =>
        if !HasClueLists(clues) then Err(CluesShape)
        else
          match CleanClues(Get(clues.value, "across").value.items, Across)
          case Err(e) => Err(e)
          case Ok(across) =>
            match CleanClues(Get(clues.value, "down").value.items, Down)
            case Err(e) => Err(e)
            case Ok(down) =>
              if across == [] && down == [] then Err(NoClues)
              else Ok(CrosswordData(CrosswordSize, rows, across, down))
  }

  /** A clue as the validator leaves it, in the list for direction `d`. */
  predicate CleanedClue(c: Clue, d: Direction) {
    c.number >= 1 && 0 <= c.row < CrosswordSize && 0 <= c.col < CrosswordSize &&
    c.clue == Trim(c.clue) && 1 <= JsLength(c.clue) <= 200 && c.direction == d &&
    (c.answer.Some? ==> 1 <= |c.answer.value| <= CrosswordSize && AllCapitals(c.answer.value))
  }

  lemma CleanClueIsClean(raw: Json, d: Direction, index: nat)
    requires CleanClue(raw, d, index).Ok?
    ensures CleanedClue(CleanClue(raw, d, index).value, d)
  {
    TrimIdempotent(StringOr(Get(raw, "clue")));
  }

  /** Every clue of an accepted list is cleaned and in the list's direction. */
  lemma CleanCluesAreClean(items: seq<Json>, d: Direction)
    requires CleanClues(items, d).Ok?
    ensures forall i :: 0 <= i < |items| ==> CleanedClue(CleanClues(items, d).value[i], d)
  {
    var r := CleanClues(items, d).value;
    forall i | 0 <= i < |items| ensures CleanedClue(r[i], d) {
      assert CleanClue(items[i], d, i) == Ok(r[i]);
      CleanClueIsClean(items[i], d, i);
    }
  }

  /** An accepted grid is 5 by 5, each cell black or one capital letter. */
  lemma CleanRowsShape(rows: seq<Json>)
    requires |rows| == CrosswordSize && CleanRows(rows, 0).Ok?
    ensures var g := CleanRows(rows, 0).value;
      IsSquare(g, CrosswordSize) &&
      forall r, c :: 0 <= r < |g| && 0 <= c < |g[r]| && g[r][c].Some? ==>
        |g[r][c].value| == 1 && IsCapital(g[r][c].value[0])
  {
    var g: Grid := CleanRows(rows, 0).value;
    forall r, c | 0 <= r < |g| && 0 <= c < |g[r]| && g[r][c].Some?
      ensures |g[r][c].value| == 1 && IsCapital(g[r][c].value[0])
    {
      assert CleanCell(rows[r].items[c], r, c) == Ok(g[r][c]);
    }
  }

  /** An accepted crossword has size 5, a 5 by 5 grid of black cells and capital
      letters, at least one clue, and every clue cleaned and in its own list. */
  lemma AcceptedCrossword(input: Json)
    requires CrosswordDataOf(input).Ok?
    ensures var cw := CrosswordDataOf(input).value;
      cw.size == CrosswordSize && IsSquare(cw.grid, CrosswordSize) &&
      (forall r, c :: 0 <= r < |cw.grid| && 0 <= c < |cw.grid[r]| && cw.grid[r][c].Some? ==>
         |cw.grid[r][c].value| == 1 && IsCapital(cw.grid[r][c].value[0])) &&
      (|cw.across| > 0 || |cw.down| > 0) &&
      (forall i :: 0 <= i < |cw.across| ==> CleanedClue(cw.across[i], Across)) &&
      (forall i :: 0 <= i < |cw.down| ==> CleanedClue(cw.down[i], Down))
  {
    var clues := Get(input, "clues").value;
    CleanRowsShape(Get(input, "grid").value.items);
    CleanCluesAreClean(Get(clues, "across").value.items, Across);
    CleanCluesAreClean(Get(clues, "down").value.items, Down);
  }
}
