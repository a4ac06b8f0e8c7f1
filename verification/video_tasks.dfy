/** The video task page: five videos, each watched at most once. */
module VideoTasks {
  import opened Tasks

  /** The `videoTasks` table: ids 1..5 worth 100, 150, 200, 250 and 300. */
  const VideoTable: seq<Task> := [Task(1, 100), Task(2, 150), Task(3, 200), Task(4, 250), Task(5, 300)]

  /** The table's shape: five rows, distinct ids, positive points, 1000 in all. */
  lemma VideoTableFacts()
    ensures WellFormedTable(VideoTable)
    ensures |VideoTable| == 5
    ensures Total(VideoTable) == 1000
  {
  }

  /** handleWatch: credit the video's points and record its id. */
  function HandleWatch(p: Progress, t: Task): (r: Progress)
    requires t in VideoTable
    ensures Consistent(VideoTable, p) ==> Consistent(VideoTable, r)
    ensures r.points > p.points
    ensures r.completed == p.completed + [t.id]
  {
    VideoTableFacts();
    CompletePreservesConsistent(VideoTable, p, t);
    CompleteIncreasesPoints(VideoTable, p, t);
    Complete(p, t)
  }

  /** Whatever the user clicks, starting from the page's initial state the
      "Completed n/5" counter stays within 5, ids are never repeated, and the
      earned points equal the sum of the watched videos, at most 1000. */
  lemma WatchSessionBounds(clicks: seq<Task>)
    ensures Valid(VideoTable, Play(VideoTable, Initial, clicks))
    ensures |Play(VideoTable, Initial, clicks).completed| <= 5
    ensures Play(VideoTable, Initial, clicks).points <= 1000
  {
    VideoTableFacts();
    InitialValid(VideoTable);
    PlayValid(VideoTable, Initial, clicks);
  }
}
