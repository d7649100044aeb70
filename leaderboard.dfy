/** The two leaderboard queries: the live board of `routes/leaderboard.ts` and the
    board frozen into an archive by `archiveCurrentGame`. Both join sessions to
    players, keep the sessions that count, order them by total time ascending
    (PostgreSQL puts NULL last) and number them from 1. */
module Leaderboard {
  import opened Wrappers
  import opened GameService
  import opened GameRoutes

  datatype Player = Player(id: string, name: string, city: string, instagram: string)

  /** A `game_sessions` row with its `player_id`. */
  datatype SessionRecord = SessionRecord(playerId: string, session: Session)

  /** The result row of either query. */
  datatype Row = Row(name: string, city: string, instagram: string, timeMs: Option<int>)

  /** A numbered leaderboard line. */
  datatype Entry = Entry(rank: nat, name: string, city: string, instagram: string, timeMs: Option<int>)

  datatype Board = Live | Archived

  /** The WHERE clause of each query. */
  predicate Qualifies(board: Board, s: Session) {
    match board
    case Live => s.completedAt.Some? && !s.failed && s.connectionsCompleted && s.crosswordCompleted
    case Archived => s.completedAt.Some? && !s.failed && s.totalTimeMs.Some?
  }

  function RowOf(p: Player, s: Session): Row {
    Row(p.name, p.city, p.instagram, s.totalTimeMs)
  }

  /** A session that joins a known player and passes the WHERE clause. */
  predicate Joins(board: Board, players: map<string, Player>, x: SessionRecord) {
    x.playerId in players && Qualifies(board, x.session)
  }

  /** The row the join makes of session `k`. */
  function RowAt(players: map<string, Player>, sessions: seq<SessionRecord>, k: int): Row
    requires 0 <= k < |sessions| && sessions[k].playerId in players
  {
    RowOf(players[sessions[k].playerId], sessions[k].session)
  }

  /** The positions of the joining sessions among the first `n`: each such
      position once, in increasing order, and no other. */
  function Kept(board: Board, players: map<string, Player>, sessions: seq<SessionRecord>, n: nat): (ks: seq<nat>)
    requires n <= |sessions|
    ensures forall i :: 0 <= i < |ks| ==> ks[i] < n && Joins(board, players, sessions[ks[i]])
    ensures forall i, j :: 0 <= i < j < |ks| ==> ks[i] < ks[j]
    ensures forall k :: 0 <= k < n && Joins(board, players, sessions[k]) ==> k in ks
  {
    if n == 0 then []
    else Kept(board, players, sessions, n - 1) + (if Joins(board, players, sessions[n - 1]) then [n - 1] else [])
  }

  /** The join over the first `n` sessions, scanned in table order. */
  function CandidatesUpTo(board: Board, players: map<string, Player>, sessions: seq<SessionRecord>, n: nat): (r: seq<Row>)
    requires n <= |sessions|
    ensures var ks := Kept(board, players, sessions, n);
      |r| == |ks| && forall i :: 0 <= i < |r| ==> r[i] == RowAt(players, sessions, ks[i])
  {
    if n == 0 then []
    else
      var x := sessions[n - 1];
      CandidatesUpTo(board, players, sessions, n - 1) +
        (if Joins(board, players, x) then [RowOf(players[x.playerId], x.session)] else [])
  }

  /** The qualifying sessions joined to their players, in table order: one row
      for each joining session, in the order of the sessions. */
  function Candidates(board: Board, players: map<string, Player>, sessions: seq<SessionRecord>): (r: seq<Row>)
    ensures var ks := Kept(board, players, sessions, |sessions|);
      |r| == |ks| && forall i :: 0 <= i < |r| ==> r[i] == RowAt(players, sessions, ks[i])
  {
    CandidatesUpTo(board, players, sessions, |sessions|)
  }

  /** A row is a candidate exactly when it is the row of some joining session. */
  lemma CandidatesIff(board: Board, players: map<string, Player>, sessions: seq<SessionRecord>)
    ensures forall row :: row in Candidates(board, players, sessions) <==>
      exists k :: 0 <= k < |sessions| && Joins(board, players, sessions[k]) && row == RowAt(players, sessions, k)
  {
    var r := Candidates(board, players, sessions);
    var ks := Kept(board, players, sessions, |sessions|);
    forall k | 0 <= k < |sessions| && Joins(board, players, sessions[k])
      ensures RowAt(players, sessions, k) in r
    {
      var i :| 0 <= i < |ks| && ks[i] == k;
      assert r[i] == RowAt(players, sessions, k);
    }
  }

  // ---- ORDER BY total_time_ms ASC (NULLS LAST) ----

  predicate TimeLeq(a: Option<int>, b: Option<int>) {
    b.None? || (a.Some? && a.value <= b.value)
  }

  predicate ByTime(rows: seq<Row>) {
    forall i, j :: 0 <= i < j < |rows| ==> TimeLeq(rows[i].timeMs, rows[j].timeMs)
  }

  function InsertByTime(x: Row, rows: seq<Row>): (r: seq<Row>)
    requires ByTime(rows)
    ensures ByTime(r)
    ensures multiset(r) == multiset(rows) + multiset{x}
  {
    if rows == [] then [x]
    else if TimeLeq(x.timeMs, rows[0].timeMs) then
      assert forall j :: 0 <= j < |rows| ==> TimeLeq(x.timeMs, rows[j].timeMs);
      assert forall i, j :: 0 <= i < j < |[x] + rows| ==>
        TimeLeq(([x] + rows)[i].timeMs, ([x] + rows)[j].timeMs) by {
        forall i, j | 0 <= i < j < |[x] + rows|
          ensures TimeLeq(([x] + rows)[i].timeMs, ([x] + rows)[j].timeMs)
        {
          if i > 0 {
            assert ([x] + rows)[i] == rows[i - 1] && ([x] + rows)[j] == rows[j - 1];
          } else {
            assert ([x] + rows)[j] == rows[j - 1];
          }
        }
      }
      [x] + rows
    else
      var tail := InsertByTime(x, rows[1..]);
      assert ByTime(rows[1..]) by {
        forall i, j | 0 <= i < j < |rows[1..]| ensures TimeLeq(rows[1..][i].timeMs, rows[1..][j].timeMs) {
          assert rows[1..][i] == rows[i + 1] && rows[1..][j] == rows[j + 1];
        }
      }
      assert rows == [rows[0]] + rows[1..];
      HeadBelowInserted(rows[0], x, rows[1..], tail);
      [rows[0]] + tail
  }

  lemma HeadBelowInserted(h: Row, x: Row, rest: seq<Row>, tail: seq<Row>)
    requires ByTime([h] + rest) && ByTime(tail) && !TimeLeq(x.timeMs, h.timeMs)
    requires multiset(tail) == multiset(rest) + multiset{x}
    ensures ByTime([h] + tail)
  {
    forall j | 0 <= j < |tail| ensures TimeLeq(h.timeMs, tail[j].timeMs) {
      assert tail[j] in multiset(tail);
      if tail[j] == x {
      } else {
        assert tail[j] in multiset(rest);
        var k :| 0 <= k < |rest| && rest[k] == tail[j];
        assert ([h] + rest)[0] == h && ([h] + rest)[k + 1] == rest[k];
      }
    }
    forall i, j | 0 <= i < j < |[h] + tail| ensures TimeLeq(([h] + tail)[i].timeMs, ([h] + tail)[j].timeMs) {
      if i > 0 {
        assert ([h] + tail)[i] == tail[i - 1] && ([h] + tail)[j] == tail[j - 1];
      } else {
        assert ([h] + tail)[j] == tail[j - 1];
      }
    }
  }

  /** `ORDER BY total_time_ms ASC`; rows with equal times keep their table order. */
  function SortByTime(rows: seq<Row>): (r: seq<Row>)
    ensures ByTime(r)
    ensures multiset(r) == multiset(rows)
  {
    if rows == [] then []
    else
      assert rows == [rows[0]] + rows[1..];
      InsertByTime(rows[0], SortByTime(rows[1..]))
  }

  /** `rows.map((row, i) => ({ rank: i + 1, ... }))`. */
  function Ranked(rows: seq<Row>): (r: seq<Entry>)
    ensures |r| == |rows|
    ensures forall i :: 0 <= i < |rows| ==>
      r[i] == Entry(i + 1, rows[i].name, rows[i].city, rows[i].instagram, rows[i].timeMs)
  {
    seq(|rows|, i requires 0 <= i < |rows| => Entry(i + 1, rows[i].name, rows[i].city, rows[i].instagram, rows[i].timeMs))
  }

  function Standings(board: Board, players: map<string, Player>, sessions: seq<SessionRecord>): seq<Entry> {
    Ranked(SortByTime(Candidates(board, players, sessions)))
  }

  /** One row for each joining session, in the order of the sessions. */
  function KeptRows(board: Board, players: map<string, Player>, sessions: seq<SessionRecord>): seq<Row> {
    var ks := Kept(board, players, sessions, |sessions|);
    seq(|ks|, i requires 0 <= i < |ks| => RowAt(players, sessions, ks[i]))
  }

  /** A board lists every qualifying session with a player exactly once in
      rank order 1, 2, …, fastest first, and nothing else. */
  lemma BoardIsRankedCandidates(board: Board, players: map<string, Player>, sessions: seq<SessionRecord>)
    ensures var b := Standings(board, players, sessions);
      var rows := SortByTime(Candidates(board, players, sessions));
      |b| == |Kept(board, players, sessions, |sessions|)| &&
      multiset(rows) == multiset(KeptRows(board, players, sessions)) &&
      (forall i :: 0 <= i < |b| ==> b[i].rank == i + 1) &&
      (forall i, j :: 0 <= i < j < |b| ==> TimeLeq(b[i].timeMs, b[j].timeMs))
  {
    var c := Candidates(board, players, sessions);
    var rows := SortByTime(c);
    CandidatesAreKeptRows(board, players, sessions);
    assert |rows| == |multiset(rows)| == |multiset(c)|;
  }

  /** The ranks count from 1 and the times never decrease down the board. */
  lemma BoardRanked(board: Board, players: map<string, Player>, sessions: seq<SessionRecord>)
    ensures var b := Standings(board, players, sessions);
      (forall i :: 0 <= i < |b| ==> b[i].rank == i + 1) &&
      (forall i, j :: 0 <= i < j < |b| ==> TimeLeq(b[i].timeMs, b[j].timeMs))
  {
  }

  lemma CandidatesAreKeptRows(board: Board, players: map<string, Player>, sessions: seq<SessionRecord>)
    ensures Candidates(board, players, sessions) == KeptRows(board, players, sessions)
  {
  }

  /** Every listed line belongs to a qualifying session of a known player. */
  lemma BoardEntriesQualify(board: Board, players: map<string, Player>, sessions: seq<SessionRecord>, i: int)
    requires 0 <= i < |Standings(board, players, sessions)|
    ensures var e := Standings(board, players, sessions)[i];
      exists k :: 0 <= k < |sessions| && Joins(board, players, sessions[k]) &&
        Row(e.name, e.city, e.instagram, e.timeMs) == RowAt(players, sessions, k)
  {
    var rows := SortByTime(Candidates(board, players, sessions));
    assert rows[i] in multiset(rows);
    assert rows[i] in Candidates(board, players, sessions);
    CandidatesIff(board, players, sessions);
  }

  /** Every line of the archived board has a time. */
  lemma ArchivedLinesTimed(players: map<string, Player>, sessions: seq<SessionRecord>)
    ensures forall i :: 0 <= i < |Standings(Archived, players, sessions)| ==>
      Standings(Archived, players, sessions)[i].timeMs.Some?
  {
    forall i | 0 <= i < |Standings(Archived, players, sessions)|
      ensures Standings(Archived, players, sessions)[i].timeMs.Some?
    {
      BoardEntriesQualify(Archived, players, sessions, i);
    }
  }

  /** The archived board is ranked from 1, fastest first, each line timed. */
  lemma ArchivedBoardOrdered(players: map<string, Player>, sessions: seq<SessionRecord>)
    ensures var b := Standings(Archived, players, sessions);
      (forall i :: 0 <= i < |b| ==> b[i].rank == i + 1 && b[i].timeMs.Some?) &&
      (forall i, j :: 0 <= i < j < |b| ==> b[i].timeMs.value <= b[j].timeMs.value)
  {
    BoardRanked(Archived, players, sessions);
    ArchivedLinesTimed(players, sessions);
  }

  /** A failed session never reaches either board. */
  lemma FailedNeverListed(board: Board, s: Session)
    requires s.failed
    ensures !Qualifies(board, s)
  {
  }

  /** On consistent sessions the two boards select the same sessions: a stamped
      session that did not fail has both puzzles done and a time. */
  lemma BoardsAgree(s: Session)
    requires Consistent(s)
    ensures Qualifies(Live, s) <==> Qualifies(Archived, s)
    ensures Qualifies(Live, s) ==> s.totalTimeMs.Some?
  {
  }
}
