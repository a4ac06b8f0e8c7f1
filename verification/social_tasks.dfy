/** The social task page. Tasks 2..4 are listed with a guarded action button;
    the referral task (id 1) is not listed, and is reached instead through the
    referral card's copy button, which has no completed-check. */
module SocialTasks {
  import opened Wrappers
  import opened Tasks

  /** The referral task, `socialTasks[0]`. */
  const Referral: Task := Task(1, 500)

  /** The `socialTasks` table. */
  const SocialTable: seq<Task> := [Referral, Task(2, 200), Task(3, 200), Task(4, 300)]

  const ReferralCode: string := "ZAPTOP-USER-123"

  /** The text written to the clipboard by the referral branch. */
  const ReferralMessage: string := "Join ZapTop with my code: " + ReferralCode

  /** The rows rendered in the task list: `socialTasks.slice(1)`. */
  const Listed: seq<Task> := SocialTable[1..]

  /** The effects of one handleTask call: the state update, the clipboard
      write (if any), and which dialogs are shown. */
  datatype Outcome = Outcome(progress: Progress, clipboard: Option<string>, loadingDialog: bool, successDialog: bool)

  /** handleTask. Both branches credit the points and record the id; the
      referral branch copies the referral message and shows neither the
      "Opening..." dialog nor the "Task Completed!" dialog, the other branch
      shows both and touches no clipboard. */
  function HandleTask(p: Progress, t: Task): (r: Outcome)
    ensures r.progress.points == p.points + t.points
    ensures r.progress.completed == p.completed + [t.id]
    ensures r.clipboard.Some? <==> t.id == 1
    ensures r.clipboard.Some? ==>
      |r.clipboard.value| >= |ReferralCode| && r.clipboard.value[|r.clipboard.value| - |ReferralCode|..] == ReferralCode
    ensures r.successDialog <==> r.clipboard.None?
    ensures r.loadingDialog <==> r.clipboard.None?
  {
    if t.id == 1 then
      Outcome(Complete(p, t), Some(ReferralMessage), false, false)
    else
      Outcome(Complete(p, t), None, true, true)
  }

  /** What the user can press on the page. */
  datatype Press =
    | CopyReferral       // the referral card's copy button
    | Action(task: Task) // the action button of a listed row

  /** One press. The copy button is always rendered; a row's action button
      only for a listed task that is not yet completed. */
  function PressOn(p: Progress, press: Press): Progress {
    match press
    case CopyReferral => HandleTask(p, SocialTable[0]).progress
    case Action(t) => if t in Listed && Offered(p, t) then HandleTask(p, t).progress else p
  }

  /** A sequence of presses. */
  function Presses(p: Progress, presses: seq<Press>): Progress
    decreases |presses|
  {
    if |presses| == 0 then p else Presses(PressOn(p, presses[0]), presses[1..])
  }

  /** `n` presses of the copy button. */
  function Copies(n: nat): seq<Press> {
    seq(n, _ => CopyReferral)
  }

  /** `n` copies of the referral id. */
  function Ones(n: nat): seq<int> {
    seq(n, _ => 1)
  }

  /** The table's shape, and the listing never shows the referral. */
  lemma SocialTableFacts()
    ensures WellFormedTable(SocialTable)
    ensures |SocialTable| == 4
    ensures |Listed| == 3
    ensures forall i :: 0 <= i < |Listed| ==> Listed[i].id != Referral.id
    ensures Referral !in Listed
  {
  }

  /** The state the page can reach: the counter is still the worth of the
      list and the list holds ids of the table, and ids 2..4 occur at most
      once; id 1 alone may repeat. */
  predicate Reachable(p: Progress) {
    && Consistent(SocialTable, p)
    && (forall i :: 0 <= i < |p.completed| ==> p.completed[i] in Ids(SocialTable))
    && (forall i, j :: 0 <= i < j < |p.completed| && p.completed[i] != Referral.id ==> p.completed[i] != p.completed[j])
  }

  lemma PressPreservesReachable(p: Progress, press: Press)
    requires Reachable(p)
    ensures Reachable(PressOn(p, press))
  {
    SocialTableFacts();
    var r := PressOn(p, press);
    match press
    case CopyReferral =>
      CompletePreservesConsistent(SocialTable, p, Referral);
      forall i, j | 0 <= i < j < |r.completed| && r.completed[i] != Referral.id
        ensures r.completed[i] != r.completed[j]
      {
        if j < |p.completed| { assert r.completed[i] == p.completed[i] && r.completed[j] == p.completed[j]; }
      }
      forall i | 0 <= i < |r.completed| ensures r.completed[i] in Ids(SocialTable) {
        if i < |p.completed| { assert r.completed[i] == p.completed[i]; }
        else { assert SocialTable[0].id == 1; }
      }
    case Action(t) =>
      if t in Listed && Offered(p, t) {
        assert t in SocialTable;
        CompletePreservesConsistent(SocialTable, p, t);
        forall i, j | 0 <= i < j < |r.completed| && r.completed[i] != Referral.id
          ensures r.completed[i] != r.completed[j]
        {
          assert r.completed[i] == p.completed[i];
          if j < |p.completed| { assert r.completed[j] == p.completed[j]; }
        }
        forall i | 0 <= i < |r.completed| ensures r.completed[i] in Ids(SocialTable) {
          if i < |p.completed| { assert r.completed[i] == p.completed[i]; }
          else {
            var k :| 0 <= k < |SocialTable| && SocialTable[k] == t;
          }
        }
      }
  }

  /** The page's initial `useState(0)`/`useState([])` state is reachable. */
  lemma InitialReachable()
    ensures Reachable(Initial)
  {
  }

  /** Over any sequence of presses from a reachable state (in particular the
      initial one), the counter equals the worth of the list and each of the
      tasks 2..4 is counted at most once. */
  lemma {:induction false} PressesReachable(p: Progress, presses: seq<Press>)
    requires Reachable(p)
    ensures Reachable(Presses(p, presses))
    decreases |presses|
  {
    if |presses| > 0 {
      PressPreservesReachable(p, presses[0]);
      PressesReachable(PressOn(p, presses[0]), presses[1..]);
    }
  }

  /** `n` presses of the unguarded copy button credit 500 points each and
      append id 1 each time. */
  lemma {:induction false} CopiesCreditEachTime(p: Progress, n: nat)
    ensures Presses(p, Copies(n)) == Progress(p.points + 500 * n, p.completed + Ones(n))
    decreases n
  {
    if n > 0 {
      var q := PressOn(p, CopyReferral);
      assert Copies(n)[0] == CopyReferral;
      assert Copies(n)[1..] == Copies(n - 1);
      assert q == Progress(p.points + 500, p.completed + [1]);
      CopiesCreditEachTime(q, n - 1);
      assert [1] + Ones(n - 1) == Ones(n);
      assert p.completed + [1] + Ones(n - 1) == p.completed + Ones(n);
    } else {
      assert p.completed + Ones(0) == p.completed;
    }
  }

  /** Five presses of the copy button: "Tasks Done" shows 5 although the page
      has only four tasks, and the list holds a single distinct id. */
  lemma ReferralOvercounts()
    ensures |Presses(Initial, Copies(5)).completed| == 5 > |SocialTable|
    ensures Elems(Presses(Initial, Copies(5)).completed) == {Referral.id}
    ensures Presses(Initial, Copies(5)).points == 2500
  {
    CopiesCreditEachTime(Initial, 5);
    assert Ones(5) == [1, 1, 1, 1, 1];
  }
}
