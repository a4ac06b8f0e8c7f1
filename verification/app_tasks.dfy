/** The app-download task page: four apps, each installed at most once. */
module AppTasks {
  import opened Tasks

  /** The `appTasks` table: ids 1..4 worth 1000, 800, 600 and 1500. */
  const AppTable: seq<Task> := [Task(1, 1000), Task(2, 800), Task(3, 600), Task(4, 1500)]

  /** The table's shape: four rows, distinct ids, positive points, 3900 in all. */
  lemma AppTableFacts()
    ensures WellFormedTable(AppTable)
    ensures |AppTable| == 4
    ensures Total(AppTable) == 3900
  {
  }

  /** handleDownload: credit the app's points and record its id. */
  function HandleDownload(p: Progress, t: Task): (r: Progress)
    requires t in AppTable
    ensures Consistent(AppTable, p) ==> Consistent(AppTable, r)
    ensures r.points > p.points
    ensures r.completed == p.completed + [t.id]
  {
    AppTableFacts();
    CompletePreservesConsistent(AppTable, p, t);
    CompleteIncreasesPoints(AppTable, p, t);
    Complete(p, t)
  }

  /** Whatever the user clicks, the "Apps Installed" list holds distinct ids,
      at most four of them, and the points earned never exceed
      1000 + 800 + 600 + 1500 = 3900. */
  lemma DownloadSessionBounds(clicks: seq<Task>)
    ensures Valid(AppTable, Play(AppTable, Initial, clicks))
    ensures |Play(AppTable, Initial, clicks).completed| <= 4
    ensures Play(AppTable, Initial, clicks).points <= 3900
  {
    AppTableFacts();
    InitialValid(AppTable);
    PlayValid(AppTable, Initial, clicks);
  }
}
