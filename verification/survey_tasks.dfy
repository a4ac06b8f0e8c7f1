/** The survey task page: four surveys, each taken at most once, and the
    difficulty badge colouring. */
module SurveyTasks {
  import opened Tasks

  /** A row of `surveyTasks`: the reducer's fields plus the difficulty label. */
  datatype Survey = Survey(task: Task, difficulty: string)

  /** The `surveyTasks` table. */
  const Surveys: seq<Survey> := [
    Survey(Task(1, 200), "Easy"),
    Survey(Task(2, 500), "Medium"),
    Survey(Task(3, 300), "Easy"),
    Survey(Task(4, 1000), "Hard")
  ]

  /** The table as the reducer sees it. */
  const SurveyTable: seq<Task> := [Surveys[0].task, Surveys[1].task, Surveys[2].task, Surveys[3].task]

  /** The three difficulty labels with a colour of their own. */
  const KnownDifficulties: set<string> := {"Easy", "Medium", "Hard"}

  const EasyClasses := "text-emerald-600 dark:text-emerald-400 bg-emerald-50 dark:bg-emerald-900/20"
  const MediumClasses := "text-amber-600 dark:text-amber-400 bg-amber-50 dark:bg-amber-900/20"
  const HardClasses := "text-red-600 dark:text-red-400 bg-red-50 dark:bg-red-900/20"
  const DefaultClasses := "text-slate-600 dark:text-slate-400 bg-slate-50 dark:bg-slate-700"

  /** getDifficultyColor: a total map from any label to a class string. The
      slate default is returned exactly for labels outside the three known
      ones. */
  function DifficultyColor(difficulty: string): (classes: string)
    ensures classes == DefaultClasses <==> difficulty !in KnownDifficulties
    ensures classes in {EasyClasses, MediumClasses, HardClasses, DefaultClasses}
  {
    match difficulty
    case "Easy" => EasyClasses
    case "Medium" => MediumClasses
    case "Hard" => HardClasses
    case _ => DefaultClasses
  }

  /** The three known labels get three different colours, so the mapping is
      injective on them. */
  lemma DifficultyColorsDistinct(a: string, b: string)
    requires a in KnownDifficulties && b in KnownDifficulties
    ensures DifficultyColor(a) == DifficultyColor(b) <==> a == b
  {
  }

  /** The table's shape; every survey's difficulty is a known label, so no
      badge falls back to the slate default. */
  lemma SurveyTableFacts()
    ensures WellFormedTable(SurveyTable)
    ensures |SurveyTable| == 4
    ensures Total(SurveyTable) == 2000
    ensures forall i :: 0 <= i < |Surveys| ==> Surveys[i].difficulty in KnownDifficulties
    ensures forall i :: 0 <= i < |Surveys| ==> DifficultyColor(Surveys[i].difficulty) != DefaultClasses
  {
    var table := [Task(1, 200), Task(2, 500), Task(3, 300), Task(4, 1000)];
    assert SurveyTable == table;
    assert Total(table[3..]) == 1000;
  }

  /** handleComplete: credit the survey's points and record its id. */
  function HandleComplete(p: Progress, t: Task): (r: Progress)
    requires t in SurveyTable
    ensures Consistent(SurveyTable, p) ==> Consistent(SurveyTable, r)
    ensures r.points > p.points
    ensures r.completed == p.completed + [t.id]
  {
    SurveyTableFacts();
    CompletePreservesConsistent(SurveyTable, p, t);
    CompleteIncreasesPoints(SurveyTable, p, t);
    Complete(p, t)
  }

  /** Whatever the user clicks, "Surveys Done" counts distinct surveys, at most
      four, and the points earned are their sum, at most 2000. */
  lemma SurveySessionBounds(clicks: seq<Task>)
    ensures Valid(SurveyTable, Play(SurveyTable, Initial, clicks))
    ensures |Play(SurveyTable, Initial, clicks).completed| <= 4
    ensures Play(SurveyTable, Initial, clicks).points <= 2000
  {
    SurveyTableFacts();
    InitialValid(SurveyTable);
    PlayValid(SurveyTable, Initial, clicks);
  }
}
