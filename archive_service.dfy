/** `archiveService.ts`: freezing the week's game into an archive. The tables the
    service touches are fields of a `Database` object; `archiveCurrentGame` runs
    in one transaction, so on an error nothing changes. */
module ArchiveService {
  import opened Wrappers
  import opened Puzzle
  import opened Leaderboard

  /** A `game_archives` row; `id` and `createdAt` come from the database. */
  datatype Archive = Archive(
    id: string, archivedDate: string, createdAt: int,
    connections: seq<Group>, crossword: CrosswordData, leaderboard: seq<Entry>)

  /** A line of `getArchives`. */
  datatype ArchiveSummary = ArchiveSummary(id: string, archivedDate: string, createdAt: int, playerCount: nat)

  const IncompletePuzzle := "Cannot archive: current puzzle is incomplete"

  /** The archive `archiveCurrentGame` inserts, or its error. */
  function ArchiveOf(id: string, today: string, now: int, current: CurrentPuzzle,
                     players: map<string, Player>, sessions: seq<SessionRecord>): (r: Result<Archive, string>)
    ensures r.Err? <==> current.connections.None? || current.crossword.None?
    ensures r.Err? ==> r.error == IncompletePuzzle
  {
    if current.connections.None? || current.crossword.None? then Err(IncompletePuzzle)
    else Ok(Archive(id, today, now, current.connections.value, current.crossword.value,
                    Standings(Archived, players, sessions)))
  }

  /** The archived board is the archive query's board over the sessions of the
      moment: ranked from 1, fastest first, each line a finished unfailed session. */
  lemma ArchivedBoardRanked(id: string, today: string, now: int, current: CurrentPuzzle,
                            players: map<string, Player>, sessions: seq<SessionRecord>)
    requires current.connections.Some? && current.crossword.Some?
    ensures var b := ArchiveOf(id, today, now, current, players, sessions).value.leaderboard;
      (forall i :: 0 <= i < |b| ==> b[i].rank == i + 1 && b[i].timeMs.Some?) &&
      (forall i, j :: 0 <= i < j < |b| ==> b[i].timeMs.value <= b[j].timeMs.value)
  {
    ArchivedBoardOrdered(players, sessions);
  }

  function Summary(a: Archive): ArchiveSummary {
    ArchiveSummary(a.id, a.archivedDate, a.createdAt, |a.leaderboard|)
  }

  /** `getArchives`: the newest archive first. Archives are appended as they are
      made, so newest first is the reverse of the table order. */
  function Summaries(archives: seq<Archive>): (r: seq<ArchiveSummary>)
    ensures |r| == |archives|
    ensures forall i :: 0 <= i < |archives| ==> r[i] == Summary(archives[|archives| - 1 - i])
  {
    if archives == [] then [] else [Summary(archives[|archives| - 1])] + Summaries(archives[..|archives| - 1])
  }

  /** `getArchiveById`. */
  function FindArchive(archives: seq<Archive>, id: string): (r: Option<Archive>)
    ensures r.Some? ==> r.value in archives && r.value.id == id
    ensures r.None? ==> forall a :: a in archives ==> a.id != id
  {
    if archives == [] then None
    else if archives[0].id == id then Some(archives[0])
    else FindArchive(archives[1..], id)
  }

  /** The tables the service reads and writes. */
  class Database {
    var players: map<string, Player>
    var sessions: seq<SessionRecord>
    var current: CurrentPuzzle
    var archives: seq<Archive>

    constructor (current: CurrentPuzzle)
      ensures this.current == current && players == map[] && sessions == [] && archives == []
    {
      this.current := current;
      players := map[];
      sessions := [];
      archives := [];
    }

    /** `archiveCurrentGame`: insert the archive, then delete every session and
        player and clear the current puzzle; roll back on an incomplete puzzle. */
    method ArchiveCurrentGame(id: string, today: string, now: int) returns (r: Result<Archive, string>)
      modifies this
      ensures r == ArchiveOf(id, today, now, old(current), old(players), old(sessions))
      ensures r.Err? ==> players == old(players) && sessions == old(sessions) &&
                         current == old(current) && archives == old(archives)
      ensures r.Ok? ==> archives == old(archives) + [r.value] && sessions == [] && players == map[] &&
                        current == CurrentPuzzle(None, None)
    {
      if current.connections.None? || current.crossword.None? {
        return Err(IncompletePuzzle);
      }
      var leaderboard := Standings(Archived, players, sessions);
      var archive := Archive(id, today, now, current.connections.value, current.crossword.value, leaderboard);
      archives := archives + [archive];
      sessions := [];
      players := map[];
      current := CurrentPuzzle(None, None);
      r := Ok(archive);
    }

    function GetArchives(): seq<ArchiveSummary>
      reads this
    {
      Summaries(archives)
    }

    function GetArchiveById(id: string): Option<Archive>
      reads this
    {
      FindArchive(archives, id)
    }
  }

  /** Archiving twice in a row fails the second time: the first clears the puzzle. */
  lemma ArchiveTwiceFails(id1: string, id2: string, today: string, t1: int, t2: int, current: CurrentPuzzle,
                          players: map<string, Player>, sessions: seq<SessionRecord>)
    requires ArchiveOf(id1, today, t1, current, players, sessions).Ok?
    ensures ArchiveOf(id2, today, t2, CurrentPuzzle(None, None), map[], []) == Err(IncompletePuzzle)
  {
  }

  /** The newest archive heads the list, with its number of ranked players. */
  lemma NewestFirst(archives: seq<Archive>, a: Archive)
    ensures Summaries(archives + [a])[0] == ArchiveSummary(a.id, a.archivedDate, a.createdAt, |a.leaderboard|)
    ensures Summaries(archives + [a])[1..] == Summaries(archives)
  {
    assert (archives + [a])[..|archives|] == archives;
  }
}
