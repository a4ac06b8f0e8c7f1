/** The "complete a task" reducer shared by the video, survey, app and social
    task pages. Each page keeps a point counter and a list of completed task
    ids; completing a task adds its points and appends its id. The pages only
    offer the action for ids that are not yet in the list. */
module Tasks {

  /** One row of a task table, reduced to the fields the reducer reads. */
  datatype Task = Task(id: int, points: int)

  /** Page-local state: the `userPoints` counter and the `completedTasks` list. */
  datatype Progress = Progress(points: int, completed: seq<int>)

  /** Both pages' `useState(0)` and `useState([])`. */
  const Initial: Progress := Progress(0, [])

  /** No two rows of a table share an id. */
  predicate UniqueIds(table: seq<Task>) {
    forall i, j :: 0 <= i < j < |table| ==> table[i].id != table[j].id
  }

  /** Every row of a table is worth a positive number of points. */
  predicate PositivePoints(table: seq<Task>) {
    forall i :: 0 <= i < |table| ==> table[i].points > 0
  }

  /** The shape every task table of the application has. */
  predicate WellFormedTable(table: seq<Task>) {
    UniqueIds(table) && PositivePoints(table)
  }

  /** The ids a table lists. */
  function Ids(table: seq<Task>): set<int> {
    set i | 0 <= i < |table| :: table[i].id
  }

  /** A list with no repeated element. */
  predicate Distinct(s: seq<int>) {
    forall i, j :: 0 <= i < j < |s| ==> s[i] != s[j]
  }

  /** The set of elements of a list. */
  function Elems(s: seq<int>): set<int> {
    set x | x in s
  }

  /** The points of the first row with the given id; 0 when there is none. */
  function PointsOf(table: seq<Task>, id: int): int {
    if |table| == 0 then 0
    else if table[0].id == id then table[0].points
    else PointsOf(table[1..], id)
  }

  /** The points a list of completed ids is worth according to a table. */
  function Earned(table: seq<Task>, ids: seq<int>): int {
    if |ids| == 0 then 0
    else Earned(table, ids[..|ids| - 1]) + PointsOf(table, ids[|ids| - 1])
  }

  /** The sum of the points of the rows whose id is in `chosen`. */
  function TotalWhere(table: seq<Task>, chosen: set<int>): int {
    if |table| == 0 then 0
    else (if table[0].id in chosen then table[0].points else 0) + TotalWhere(table[1..], chosen)
  }

  /** The sum of the points of every row. */
  function Total(table: seq<Task>): int {
    if |table| == 0 then 0 else table[0].points + Total(table[1..])
  }

  /** The counter agrees with the list: it is what the completed ids are worth. */
  predicate Consistent(table: seq<Task>, p: Progress) {
    p.points == Earned(table, p.completed)
  }

  /** What the guarded pages maintain: the counter agrees with the list, and
      the list holds distinct ids of the table. */
  predicate Valid(table: seq<Task>, p: Progress) {
    && Consistent(table, p)
    && Distinct(p.completed)
    && (forall i :: 0 <= i < |p.completed| ==> p.completed[i] in Ids(table))
  }

  /** `isCompleted` negated: the page renders the action button for `t`. */
  predicate Offered(p: Progress, t: Task) {
    t.id !in p.completed
  }

  /** The state update of handleWatch / handleComplete / handleDownload /
      handleTask: credit the points and record the id at the end of the list. */
  function Complete(p: Progress, t: Task): (r: Progress)
    ensures |r.completed| == |p.completed| + 1
    ensures r.completed[..|p.completed|] == p.completed
    ensures r.completed[|p.completed|] == t.id
    ensures r.points - p.points == t.points
    ensures multiset(r.completed)[t.id] == multiset(p.completed)[t.id] + 1
  {
    Progress(p.points + t.points, p.completed + [t.id])
  }

  /** A click on a row of a guarded page: it has an effect only when the
      button is rendered, i.e. the row belongs to the table and is not done. */
  function Click(table: seq<Task>, p: Progress, t: Task): Progress {
    if t in table && Offered(p, t) then Complete(p, t) else p
  }

  /** A sequence of clicks on a guarded page. */
  function Play(table: seq<Task>, p: Progress, clicks: seq<Task>): Progress
    decreases |clicks|
  {
    if |clicks| == 0 then p else Play(table, Click(table, p, clicks[0]), clicks[1..])
  }

  // ---------------------------------------------------------------------
  // Lemmas about the lookup and the sums

  lemma {:induction false} PointsOfMember(table: seq<Task>, t: Task)
    requires UniqueIds(table)
    requires t in table
    ensures PointsOf(table, t.id) == t.points
  {
    if table[0] != t {
      assert t in table[1..];
      var k :| 0 <= k < |table[1..]| && table[1..][k] == t;
      assert table[k + 1] == t;
      assert table[0].id != t.id;
      PointsOfMember(table[1..], t);
    }
  }

  lemma {:induction false} EarnedAppend(table: seq<Task>, ids: seq<int>, x: int)
    ensures Earned(table, ids + [x]) == Earned(table, ids) + PointsOf(table, x)
  {
    assert (ids + [x])[..|ids|] == ids;
  }

  lemma {:induction false} TotalWhereNotIn(table: seq<Task>, chosen: set<int>, x: int)
    requires x !in Ids(table)
    ensures TotalWhere(table, chosen + {x}) == TotalWhere(table, chosen)
  {
    if |table| > 0 {
      assert table[0].id in Ids(table);
      assert Ids(table[1..]) <= Ids(table) by {
        forall y | y in Ids(table[1..]) ensures y in Ids(table) {
          var k :| 0 <= k < |table[1..]| && table[1..][k].id == y;
          assert table[k + 1].id == y;
        }
      }
      TotalWhereNotIn(table[1..], chosen, x);
    }
  }

  lemma {:induction false} TotalWhereAdd(table: seq<Task>, chosen: set<int>, x: int)
    requires UniqueIds(table)
    requires x !in chosen
    ensures TotalWhere(table, chosen + {x}) == TotalWhere(table, chosen) + PointsOf(table, x)
  {
    if |table| > 0 {
      var rest := table[1..];
      assert UniqueIds(rest) by {
        forall i, j | 0 <= i < j < |rest| ensures rest[i].id != rest[j].id {
          assert rest[i] == table[i + 1] && rest[j] == table[j + 1];
        }
      }
      if table[0].id == x {
        assert x !in Ids(rest) by {
          forall k | 0 <= k < |rest| ensures rest[k].id != x {
            assert rest[k] == table[k + 1];
          }
        }
        TotalWhereNotIn(rest, chosen, x);
      } else {
        TotalWhereAdd(rest, chosen, x);
      }
    }
  }

  lemma {:induction false} EarnedIsTotalWhere(table: seq<Task>, ids: seq<int>)
    requires UniqueIds(table)
    requires Distinct(ids)
    ensures Earned(table, ids) == TotalWhere(table, Elems(ids))
  {
    if |ids| == 0 {
      assert Elems(ids) == {};
      TotalWhereEmpty(table);
    } else {
      var front := ids[..|ids| - 1];
      var x := ids[|ids| - 1];
      var s := Elems(front);
      assert Elems(ids) == s + {x} by {
        assert ids == front + [x];
      }
      assert x !in s by {
        forall k | 0 <= k < |front| ensures front[k] != x {
          assert front[k] == ids[k];
        }
      }
      assert Distinct(front) by {
        forall i, j | 0 <= i < j < |front| ensures front[i] != front[j] {
          assert front[i] == ids[i] && front[j] == ids[j];
        }
      }
      EarnedIsTotalWhere(table, front);
      TotalWhereAdd(table, s, x);
    }
  }

  lemma {:induction false} TotalWhereEmpty(table: seq<Task>)
    ensures TotalWhere(table, {}) == 0
  {
    if |table| > 0 {
      TotalWhereEmpty(table[1..]);
    }
  }

  lemma {:induction false} TotalWhereAtMostTotal(table: seq<Task>, chosen: set<int>)
    requires PositivePoints(table)
    ensures TotalWhere(table, chosen) <= Total(table)
  {
    if |table| > 0 {
      assert PositivePoints(table[1..]) by {
        forall i | 0 <= i < |table[1..]| ensures table[1..][i].points > 0 {
          assert table[1..][i] == table[i + 1];
        }
      }
      TotalWhereAtMostTotal(table[1..], chosen);
    }
  }

  // ---------------------------------------------------------------------
  // Counting

  lemma {:induction false} DistinctCard(s: seq<int>)
    requires Distinct(s)
    ensures |Elems(s)| == |s|
  {
    if |s| > 0 {
      var front := s[..|s| - 1];
      var x := s[|s| - 1];
      var f := Elems(front);
      assert Distinct(front) by {
        forall i, j | 0 <= i < j < |front| ensures front[i] != front[j] {
          assert front[i] == s[i] && front[j] == s[j];
        }
      }
      DistinctCard(front);
      assert x !in f by {
        forall k | 0 <= k < |front| ensures front[k] != x {
          assert front[k] == s[k];
        }
      }
      assert Elems(s) == f + {x} by {
        assert s == front + [x];
      }
    }
  }

  lemma SubsetCard(a: set<int>, b: set<int>)
    requires a <= b
    ensures |a| <= |b|
  {
    assert b == a + (b - a);
    assert a * (b - a) == {};
  }

  lemma {:induction false} IdsCard(table: seq<Task>)
    ensures |Ids(table)| <= |table|
  {
    if |table| > 0 {
      IdsCard(table[1..]);
      assert Ids(table) == Ids(table[1..]) + {table[0].id} by {
        forall y | y in Ids(table) ensures y in Ids(table[1..]) + {table[0].id} {
          var k :| 0 <= k < |table| && table[k].id == y;
          if k > 0 { assert table[1..][k - 1].id == y; }
        }
        forall y | y in Ids(table[1..]) ensures y in Ids(table) {
          var k :| 0 <= k < |table[1..]| && table[1..][k].id == y;
          assert table[k + 1].id == y;
        }
      }
    }
  }

  // ---------------------------------------------------------------------
  // The reducer's invariants

  /** Completing a task of the table keeps the counter equal to the worth of
      the list, whether or not the id was already there. */
  lemma CompletePreservesConsistent(table: seq<Task>, p: Progress, t: Task)
    requires UniqueIds(table)
    requires t in table
    ensures Consistent(table, p) ==> Consistent(table, Complete(p, t))
  {
    EarnedAppend(table, p.completed, t.id);
    PointsOfMember(table, t);
  }

  /** With a table of positive points, every completion strictly raises the
      counter. */
  lemma CompleteIncreasesPoints(table: seq<Task>, p: Progress, t: Task)
    requires PositivePoints(table)
    requires t in table
    ensures Complete(p, t).points > p.points
  {
    var k :| 0 <= k < |table| && table[k] == t;
  }

  /** An offered completion keeps the page state valid. */
  lemma CompletePreservesValid(table: seq<Task>, p: Progress, t: Task)
    requires UniqueIds(table)
    requires t in table
    requires Offered(p, t)
    requires Valid(table, p)
    ensures Valid(table, Complete(p, t))
  {
    CompletePreservesConsistent(table, p, t);
    var r := Complete(p, t);
    var k :| 0 <= k < |table| && table[k] == t;
    assert t.id in Ids(table);
    forall i, j | 0 <= i < j < |r.completed| ensures r.completed[i] != r.completed[j] {
      if j == |p.completed| {
        assert r.completed[i] == p.completed[i];
      } else {
        assert r.completed[i] == p.completed[i] && r.completed[j] == p.completed[j];
      }
    }
    forall i | 0 <= i < |r.completed| ensures r.completed[i] in Ids(table) {
      if i < |p.completed| { assert r.completed[i] == p.completed[i]; }
    }
  }

  /** In a valid state the list is no longer than the table. */
  lemma CompletedWithinTable(table: seq<Task>, p: Progress)
    requires Valid(table, p)
    ensures |p.completed| <= |table|
  {
    var done := Elems(p.completed);
    DistinctCard(p.completed);
    assert done <= Ids(table);
    SubsetCard(done, Ids(table));
    IdsCard(table);
  }

  /** In a valid state the counter never exceeds the sum of the whole table. */
  lemma PointsWithinTotal(table: seq<Task>, p: Progress)
    requires WellFormedTable(table)
    requires Valid(table, p)
    ensures p.points <= Total(table)
  {
    EarnedIsTotalWhere(table, p.completed);
    TotalWhereAtMostTotal(table, Elems(p.completed));
  }

  /** Any sequence of clicks on a guarded page, starting from the initial
      state, leaves a valid state: ids unique, counter equal to their worth,
      list no longer than the table, counter at most the table's total. */
  lemma {:induction false} PlayValid(table: seq<Task>, p: Progress, clicks: seq<Task>)
    requires WellFormedTable(table)
    requires Valid(table, p)
    ensures Valid(table, Play(table, p, clicks))
    ensures |Play(table, p, clicks).completed| <= |table|
    ensures Play(table, p, clicks).points <= Total(table)
    decreases |clicks|
  {
    if |clicks| == 0 {
      CompletedWithinTable(table, p);
      PointsWithinTotal(table, p);
    } else {
      var t := clicks[0];
      if t in table && Offered(p, t) {
        CompletePreservesValid(table, p, t);
      }
      PlayValid(table, Click(table, p, t), clicks[1..]);
    }
  }

  /** The initial state is valid for every table. */
  lemma InitialValid(table: seq<Task>)
    ensures Valid(table, Initial)
    ensures Initial.points == 0 && |Initial.completed| == 0
  {
  }
}
