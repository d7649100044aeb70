/** The Connections builder of `AdminConnectionsPage.tsx`: four group drafts of
    four words each, the edits the page makes to them, the validation run before a
    save, and the payload sent to the server. */
module AdminConnections {
  import opened Wrappers
  import opened Text
  import opened Json
  import opened Puzzle
  import opened AdminValidation

  /** A group as the builder edits it. */
  datatype GroupDraft = GroupDraft(title: string, words: seq<string>, difficulty: int)

  /** `emptyGroup`. */
  function EmptyGroup(difficulty: int): GroupDraft {
    GroupDraft("", ["", "", "", ""], difficulty)
  }

  /** The page's initial state: four empty groups of difficulty 1 to 4. */
  const InitialDrafts: seq<GroupDraft> := [EmptyGroup(1), EmptyGroup(2), EmptyGroup(3), EmptyGroup(4)]

  /** The draft shape the page keeps: four groups, each a tuple of four words. */
  predicate Shaped(groups: seq<GroupDraft>) {
    |groups| == ConnectionsNumGroups &&
    forall i :: 0 <= i < |groups| ==> |groups[i].words| == ConnectionsGroupSize
  }

  lemma InitialShaped()
    ensures Shaped(InitialDrafts)
    ensures forall i :: 0 <= i < 4 ==> InitialDrafts[i].difficulty == i + 1
  {
  }

  // ---- Edits ----

  /** `updateGroup(idx, 'label', value)`: only the chosen group's label (`title`) changes. */
  function UpdateLabel(groups: seq<GroupDraft>, idx: int, value: string): (r: seq<GroupDraft>)
    ensures |r| == |groups|
    ensures forall i :: 0 <= i < |groups| && i != idx ==> r[i] == groups[i]
    ensures 0 <= idx < |groups| ==> r[idx] == groups[idx].(title := value)
  {
    seq(|groups|, i requires 0 <= i < |groups| => if i == idx then groups[i].(title := value) else groups[i])
  }

  /** `updateWord`: the chosen word of the chosen group becomes the upper-cased
      value; every other word, label and difficulty stays. */
  function UpdateWord(groups: seq<GroupDraft>, groupIdx: int, wordIdx: int, value: string): (r: seq<GroupDraft>)
    requires Shaped(groups) && 0 <= wordIdx < ConnectionsGroupSize
    ensures |r| == |groups|
    ensures forall i :: 0 <= i < |groups| && i != groupIdx ==> r[i] == groups[i]
    ensures 0 <= groupIdx < |groups| ==>
      r[groupIdx].title == groups[groupIdx].title && r[groupIdx].difficulty == groups[groupIdx].difficulty &&
      |r[groupIdx].words| == |groups[groupIdx].words| &&
      r[groupIdx].words[wordIdx] == Upper(value) &&
      forall j :: 0 <= j < |groups[groupIdx].words| && j != wordIdx ==> r[groupIdx].words[j] == groups[groupIdx].words[j]
  {
    seq(|groups|, i requires 0 <= i < |groups| =>
      if i == groupIdx then groups[i].(words := groups[i].words[wordIdx := Upper(value)]) else groups[i])
  }

  /** Both edits keep the four-by-four shape. */
  lemma EditsKeepShape(groups: seq<GroupDraft>, gi: int, wi: int, value: string)
    requires Shaped(groups) && 0 <= wi < ConnectionsGroupSize
    ensures Shaped(UpdateLabel(groups, gi, value))
    ensures Shaped(UpdateWord(groups, gi, wi, value))
  {
  }

  // ---- validate ----

  /** The errors `validate` returns; positions are zero-based here. */
  datatype DraftProblem = NeedsLabel(group: nat) | EmptyWord(group: nat, word: nat) | Duplicate(repeated: string) | NotSixteen

  function Message(p: DraftProblem): string {
    match p
    case NeedsLabel(i) => "Group " + NatToString(i + 1) + " needs a label"
    case EmptyWord(i, j) => "Group " + NatToString(i + 1) + " word " + NatToString(j + 1) + " is empty"
    case Duplicate(w) => "Duplicate word: \"" + w + "\""
    case NotSixteen => "Need exactly 16 words (4 groups of 4)"
  }

  predicate Blank(s: string) {
    Trim(s) == ""
  }

  /** A blank label or word at a real position, at or after label `i` and, in
      group `i`, at or after word `j`. */
  predicate BlankAt(p: DraftProblem, i: nat, j: nat) {
    match p
    case NeedsLabel(g) => i <= g < 4 && (g == i ==> j == 0)
    case EmptyWord(g, w) => i <= g < 4 && w < 4 && (g == i ==> j <= w)
    case _ => false
  }

  /** The first blank label or word from group `i` on, in the loops' order. */
  function FirstBlank(groups: seq<GroupDraft>, i: nat): (r: Option<DraftProblem>)
    requires Shaped(groups) && i <= 4
    ensures r.Some? ==> BlankAt(r.value, i, 0)
    decreases 4 - i, 5
  {
    if i == 4 then None
    else if Blank(groups[i].title) then Some(NeedsLabel(i))
    else FirstBlankWord(groups, i, 0)
  }

  /** The first blank word of group `i` from word `j` on, then the later groups. */
  function FirstBlankWord(groups: seq<GroupDraft>, i: nat, j: nat): (r: Option<DraftProblem>)
    requires Shaped(groups) && i < 4 && j <= 4
    ensures r.Some? ==> BlankAt(r.value, i, j)
    decreases 4 - i, 4 - j
  {
    if j == 4 then FirstBlank(groups, i + 1)
    else if Blank(groups[i].words[j]) then Some(EmptyWord(i, j))
    else FirstBlankWord(groups, i, j + 1)
  }

  /** `w.trim().toUpperCase()`. */
  function Normalize(w: string): string {
    Upper(Trim(w))
  }

  function NormalizeAll(ws: seq<string>): (r: seq<string>)
    ensures |r| == |ws| && forall k :: 0 <= k < |ws| ==> r[k] == Normalize(ws[k])
  {
    seq(|ws|, k requires 0 <= k < |ws| => Normalize(ws[k]))
  }

  /** `allWords`: every group's normalised words, group after group. */
  function DraftWords(groups: seq<GroupDraft>): seq<string> {
    if groups == [] then [] else NormalizeAll(groups[0].words) + DraftWords(groups[1..])
  }

  /** What `validate` returns. */
  function DraftCheck(groups: seq<GroupDraft>): Option<DraftProblem>
    requires Shaped(groups)
  {
    match FirstBlank(groups, 0)
    case Some(p) => Some(p)
    case None =>
      match FirstRepeat(DraftWords(groups))
      case Some(w) => Some(Duplicate(w))
      case None => if |DraftWords(groups)| != 16 then Some(NotSixteen) else None
  }

  /** `validate`: the label and word loops, then the `seen` set. */
  method Validate(groups: seq<GroupDraft>) returns (err: Option<DraftProblem>)
    requires Shaped(groups)
    ensures err == DraftCheck(groups)
  {
    var i := 0;
    while i < 4
      invariant 0 <= i <= 4
      invariant FirstBlank(groups, 0) == FirstBlank(groups, i)
    {
      if Trim(groups[i].title) == "" {
        return Some(NeedsLabel(i));
      }
      var j := 0;
      while j < 4
        invariant 0 <= j <= 4
        invariant FirstBlank(groups, 0) == FirstBlankWord(groups, i, j)
      {
        if Trim(groups[i].words[j]) == "" {
          return Some(EmptyWord(i, j));
        }
        j := j + 1;
      }
      i := i + 1;
    }
    var allWords := DraftWords(groups);
    var seen: set<string> := {};
    var k := 0;
    while k < |allWords|
      invariant 0 <= k <= |allWords|
      invariant FirstRepeat(allWords) == FirstRepeatFrom(allWords[k..], seen)
    {
      assert allWords[k..][1..] == allWords[k + 1..];
      if allWords[k] in seen {
        return Some(Duplicate(allWords[k]));
      }
      seen := seen + {allWords[k]};
      k := k + 1;
    }
    if |allWords| != 16 {
      return Some(NotSixteen);
    }
    return None;
  }

  // ---- Properties of validate ----

  /** Labels and words of groups `i` onwards are all non-blank. */
  predicate FilledFrom(groups: seq<GroupDraft>, i: nat)
    requires Shaped(groups)
  {
    forall g :: i <= g < 4 ==> !Blank(groups[g].title) && WordsFilled(groups, g, 0)
  }

  /** Words `j` onwards of group `i` are all non-blank. */
  predicate WordsFilled(groups: seq<GroupDraft>, i: nat, j: nat)
    requires Shaped(groups) && i < 4
  {
    forall w :: j <= w < 4 ==> !Blank(groups[i].words[w])
  }

  lemma {:induction false} FirstBlankNone(groups: seq<GroupDraft>, i: nat)
    requires Shaped(groups) && i <= 4
    ensures FirstBlank(groups, i).None? <==> FilledFrom(groups, i)
    decreases 4 - i, 5
  {
    if i < 4 && !Blank(groups[i].title) {
      FirstBlankWordNone(groups, i, 0);
    }
  }

  lemma {:induction false} FirstBlankWordNone(groups: seq<GroupDraft>, i: nat, j: nat)
    requires Shaped(groups) && i < 4 && j <= 4
    ensures FirstBlankWord(groups, i, j).None? <==> WordsFilled(groups, i, j) && FilledFrom(groups, i + 1)
    decreases 4 - i, 4 - j
  {
    if j == 4 {
      FirstBlankNone(groups, i + 1);
    } else if !Blank(groups[i].words[j]) {
      FirstBlankWordNone(groups, i, j + 1);
      assert WordsFilled(groups, i, j) <==> WordsFilled(groups, i, j + 1);
    } else {
      assert !WordsFilled(groups, i, j);
    }
  }

  lemma {:induction false} DraftWordsLength(groups: seq<GroupDraft>)
    ensures |DraftWords(groups)| == if groups == [] then 0 else |groups[0].words| + |DraftWords(groups[1..])|
  {
  }

  /** A well-shaped draft always has sixteen words, so the `Need exactly 16 words`
      error can never be returned. */
  lemma NeverNotSixteen(groups: seq<GroupDraft>)
    requires Shaped(groups)
    ensures |DraftWords(groups)| == 16
    ensures DraftCheck(groups) != Some(NotSixteen)
  {
    FourGroupsSixteenWords(groups);
  }

  /** Four groups of four words give sixteen words. */
  lemma FourGroupsSixteenWords(groups: seq<GroupDraft>)
    requires Shaped(groups)
    ensures |DraftWords(groups)| == 16
  {
    var g1, g2, g3 := groups[1..], groups[2..], groups[3..];
    assert g1[1..] == g2 && g2[1..] == g3 && g3[1..] == [];
    DraftWordsLength(g3);
    DraftWordsLength(g2);
    DraftWordsLength(g1);
    DraftWordsLength(groups);
  }

  /** The draft passes exactly when no label or word is blank and no two
      words are equal once trimmed and upper-cased, in any two groups. */
  lemma ValidateAcceptsIff(groups: seq<GroupDraft>)
    requires Shaped(groups)
    ensures DraftCheck(groups).None? <==>
      FilledFrom(groups, 0) &&
      forall a, b :: 0 <= a < b < |DraftWords(groups)| ==> DraftWords(groups)[a] != DraftWords(groups)[b]
  {
    FirstBlankNone(groups, 0);
    FirstRepeatFromNone(DraftWords(groups), {});
    NeverNotSixteen(groups);
  }

  /** Two words that differ only in case or surrounding white space are
      reported as a duplicate, wherever they sit. */
  lemma SpacingAndCaseDuplicate(groups: seq<GroupDraft>, a: int, b: int)
    requires Shaped(groups) && FilledFrom(groups, 0)
    requires 0 <= a < b < |DraftWords(groups)| && DraftWords(groups)[a] == DraftWords(groups)[b]
    ensures DraftCheck(groups).Some? && DraftCheck(groups).value.Duplicate?
  {
    FirstBlankNone(groups, 0);
    FirstRepeatFromNone(DraftWords(groups), {});
  }

  // ---- handleSave ----

  /** The group sent for position `i`: label trimmed, words trimmed and
      upper-cased, difficulty as drafted, colour by position. */
  function SavedGroup(g: GroupDraft, i: nat): Group
    requires i < |ConnectionColors|
  {
    Group(Trim(g.title), NormalizeAll(g.words), g.difficulty, ConnectionColors[i])
  }

  /** The saved groups for the drafts from position `base` on. */
  function SavedGroups(groups: seq<GroupDraft>, base: nat): (r: seq<Group>)
    requires base + |groups| <= |ConnectionColors|
    ensures |r| == |groups| && forall i :: 0 <= i < |groups| ==> r[i] == SavedGroup(groups[i], base + i)
    decreases |groups|
  {
    if groups == [] then [] else [SavedGroup(groups[0], base)] + SavedGroups(groups[1..], base + 1)
  }

  /** The `groups` of `connectionsData`. */
  function Payload(groups: seq<GroupDraft>): seq<Group>
    requires |groups| <= |ConnectionColors|
  {
    SavedGroups(groups, 0)
  }

  /** The payload's words are exactly the words `validate` checked. */
  lemma {:induction false} PayloadWords(groups: seq<GroupDraft>, base: nat)
    requires base + |groups| <= |ConnectionColors|
    ensures AllWords(SavedGroups(groups, base)) == DraftWords(groups)
    decreases |groups|
  {
    if groups != [] {
      var p := SavedGroups(groups, base);
      assert p[1..] == SavedGroups(groups[1..], base + 1);
      PayloadWords(groups[1..], base + 1);
    }
  }

  lemma ColorsClean()
    ensures forall i :: 0 <= i < |ConnectionColors| ==> Trim(ConnectionColors[i]) == ConnectionColors[i] && JsLength(ConnectionColors[i]) <= 32
  {
    forall i | 0 <= i < |ConnectionColors|
      ensures Trim(ConnectionColors[i]) == ConnectionColors[i] && JsLength(ConnectionColors[i]) <= 32
    {
      TrimNoOp(ConnectionColors[i]);
      JsLengthBasic(ConnectionColors[i]);
    }
  }

  /** A normalised, non-blank word of at most 40 code units is one the server keeps as it is. */
  lemma NormalizedWordClean(w: string)
    requires !Blank(w) && JsLength(Trim(w)) <= 40
    ensures Normalize(w) == Upper(Trim(Normalize(w))) && 1 <= JsLength(Normalize(w)) <= 40
  {
    JsLengthUpper(Trim(w));
    UpperTrimCommute(Trim(w));
    TrimIdempotent(w);
    UpperIdempotent(Trim(w));
  }

  /** A saved group of a filled draft, with the server's length and difficulty
      limits met, is a group the server's validator leaves unchanged. */
  lemma SavedGroupClean(groups: seq<GroupDraft>, i: nat)
    requires Shaped(groups) && FilledFrom(groups, 0) && i < 4
    requires 1 <= groups[i].difficulty <= 4 && JsLength(Trim(groups[i].title)) <= 80
    requires forall j :: 0 <= j < 4 ==> JsLength(Trim(groups[i].words[j])) <= 40
    ensures CleanedGroup(SavedGroup(groups[i], i))
  {
    var g := groups[i];
    TrimIdempotent(g.title);
    ColorsClean();
    forall j | 0 <= j < 4 ensures Normalize(g.words[j]) == Upper(Trim(Normalize(g.words[j]))) && 1 <= JsLength(Normalize(g.words[j])) <= 40 {
      NormalizedWordClean(g.words[j]);
    }
  }

  /** Every saved group of an accepted draft within the server's limits is clean. */
  lemma PayloadClean(groups: seq<GroupDraft>)
    requires Shaped(groups) && DraftCheck(groups).None?
    requires forall i :: 0 <= i < 4 ==> 1 <= groups[i].difficulty <= 4 && JsLength(Trim(groups[i].title)) <= 80
    requires forall i, j :: 0 <= i < 4 && 0 <= j < 4 ==> JsLength(Trim(groups[i].words[j])) <= 40
    ensures forall i :: 0 <= i < |Payload(groups)| ==> CleanedGroup(Payload(groups)[i])
  {
    FirstBlankNone(groups, 0);
    forall i | 0 <= i < 4 ensures CleanedGroup(Payload(groups)[i]) {
      SavedGroupClean(groups, i);
    }
  }

  /** Whatever `validate` lets through is accepted unchanged by the server's
      `validateConnectionsData`, provided the limits the page does not check
      itself hold: labels of at most 80 UTF-16 code units, words of at most 40 and
      difficulties in 1..4. */
  lemma SavedDraftAccepted(groups: seq<GroupDraft>)
    requires Shaped(groups) && DraftCheck(groups).None?
    requires forall i :: 0 <= i < 4 ==> 1 <= groups[i].difficulty <= 4 && JsLength(Trim(groups[i].title)) <= 80
    requires forall i, j :: 0 <= i < 4 && 0 <= j < 4 ==> JsLength(Trim(groups[i].words[j])) <= 40
    ensures ConnectionsData(ConnectionsJson(Payload(groups))) == Ok(Payload(groups))
  {
    PayloadClean(groups);
    PayloadWords(groups, 0);
    ValidateAcceptsIff(groups);
    ConnectionsOfClean(Payload(groups));
  }
}
