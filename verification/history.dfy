/** The transaction history page: a fixed list of transactions and a
    category filter over it. */
module History {

  datatype Kind = Debit | Credit

  /** A row of `transactions`, reduced to what the filter and the listing
      distinguish. */
  datatype Transaction = Transaction(id: int, kind: Kind, title: string, category: string)

  /** The `transactions` table. */
  const Transactions: seq<Transaction> := [
    Transaction(1, Debit, "MTN Airtime Purchase", "Airtime"),
    Transaction(2, Credit, "Video Task Reward", "Task"),
    Transaction(3, Debit, "Airtel Data Purchase", "Data"),
    Transaction(4, Credit, "Survey Task Reward", "Task"),
    Transaction(5, Debit, "IKEDC Electricity", "Bills"),
    Transaction(6, Credit, "Referral Bonus", "Bonus")
  ]

  /** The filter buttons, in display order. */
  const Filters: seq<string> := ["All", "Airtime", "Data", "Bills", "Tasks", "Bonus"]

  /** `useState("All")`. */
  const InitialFilter: string := "All"

  /** `a` is `b` with some elements dropped and the rest kept in order. */
  predicate IsSubsequence(a: seq<Transaction>, b: seq<Transaction>)
    decreases |b|
  {
    |a| == 0 || (|b| > 0 && ((a[0] == b[0] && IsSubsequence(a[1..], b[1..])) || IsSubsequence(a, b[1..])))
  }

  /** `transactions.filter((t) => t.category === category)`. */
  function KeepCategory(txs: seq<Transaction>, category: string): seq<Transaction> {
    if |txs| == 0 then []
    else if txs[0].category == category then [txs[0]] + KeepCategory(txs[1..], category)
    else KeepCategory(txs[1..], category)
  }

  /** The category filter keeps exactly the transactions of that category:
      everything it returns has the category and comes from the input, in the
      input's order, and every transaction of the category is kept as many
      times as it occurs in the input. */
  lemma {:induction false} KeepCategoryExact(txs: seq<Transaction>, category: string)
    ensures forall i :: 0 <= i < |KeepCategory(txs, category)| ==>
      KeepCategory(txs, category)[i].category == category && KeepCategory(txs, category)[i] in txs
    ensures forall i :: 0 <= i < |txs| && txs[i].category == category ==> txs[i] in KeepCategory(txs, category)
    ensures IsSubsequence(KeepCategory(txs, category), txs)
    ensures forall x :: multiset(KeepCategory(txs, category))[x] == (if x.category == category then multiset(txs)[x] else 0)
    ensures |KeepCategory(txs, category)| <= |txs|
    decreases |txs|
  {
    KeepCategoryCounts(txs, category);
    if |txs| > 0 {
      var rest := txs[1..];
      KeepCategoryExact(rest, category);
      var r := KeepCategory(txs, category);
      forall i | 0 <= i < |txs| && txs[i].category == category ensures txs[i] in r {
        if i > 0 { assert txs[i] == rest[i - 1]; }
      }
      if txs[0].category == category {
        assert r[1..] == KeepCategory(rest, category);
      }
    }
  }

  /** The multiset part of KeepCategoryExact: each transaction of the
      category occurs in the result as often as in the input, any other
      transaction not at all. */
  lemma {:induction false} KeepCategoryCounts(txs: seq<Transaction>, category: string)
    ensures forall x :: multiset(KeepCategory(txs, category))[x] == (if x.category == category then multiset(txs)[x] else 0)
    decreases |txs|
  {
    if |txs| > 0 {
      var rest := txs[1..];
      KeepCategoryCounts(rest, category);
      assert txs == [txs[0]] + rest;
      var r := KeepCategory(txs, category);
      if txs[0].category == category {
        assert r == [txs[0]] + KeepCategory(rest, category);
        assert multiset(r) == multiset{txs[0]} + multiset(KeepCategory(rest, category));
      } else {
        assert r == KeepCategory(rest, category);
      }
      assert multiset(txs) == multiset{txs[0]} + multiset(rest);
    }
  }

  /** `filteredTransactions`: "All" shows everything, any other button keeps
      exactly the transactions of that category, each as many times as it
      occurs, in their original order. */
  function Filtered(txs: seq<Transaction>, filter: string): (r: seq<Transaction>)
    ensures filter == "All" ==> r == txs
    ensures filter != "All" ==> forall i :: 0 <= i < |r| ==> r[i].category == filter
    ensures forall i :: 0 <= i < |txs| && (filter == "All" || txs[i].category == filter) ==> txs[i] in r
    ensures forall x :: multiset(r)[x] == (if filter == "All" || x.category == filter then multiset(txs)[x] else 0)
    ensures forall i :: 0 <= i < |r| ==> r[i] in txs
    ensures IsSubsequence(r, txs)
    ensures |r| <= |txs|
  {
    if filter == "All" then
      SubsequenceRefl(txs);
      txs
    else
      KeepCategoryExact(txs, filter);
      KeepCategory(txs, filter)
  }

  lemma {:induction false} SubsequenceRefl(s: seq<Transaction>)
    ensures IsSubsequence(s, s)
    decreases |s|
  {
    if |s| > 0 {
      SubsequenceRefl(s[1..]);
    }
  }

  /** A filter that no transaction's category equals yields nothing. */
  lemma UnmatchedFilterIsEmpty(txs: seq<Transaction>, filter: string)
    requires filter != "All"
    requires forall i :: 0 <= i < |txs| ==> txs[i].category != filter
    ensures Filtered(txs, filter) == []
  {
  }

  /** The page's list never holds more than the six transactions. */
  lemma FilteredWithinSix(filter: string)
    ensures |Filtered(Transactions, filter)| <= 6
  {
  }

  /** The "Tasks" button shows nothing: the categories are spelled "Task". */
  lemma TasksLabelMatchesNothing()
    ensures "Tasks" in Filters
    ensures forall i :: 0 <= i < |Transactions| ==> Transactions[i].category != "Tasks"
    ensures Filtered(Transactions, "Tasks") == []
  {
    UnmatchedFilterIsEmpty(Transactions, "Tasks");
  }

  /** The category "Task" has two transactions, but no button selects it. */
  lemma TaskCategoryUnreachable()
    ensures Filtered(Transactions, "Task") == [Transactions[1], Transactions[3]]
    ensures "Task" !in Filters
  {
    TaskRows();
    FilteredIsKeep(Transactions, "Task");
    NoTaskButton();
  }

  /** No filter button is labelled "Task". */
  lemma NoTaskButton()
    ensures "Task" !in Filters
  {
  }

  /** Away from "All", the page's filter is the category filter. */
  lemma FilteredIsKeep(txs: seq<Transaction>, filter: string)
    requires filter != "All"
    ensures Filtered(txs, filter) == KeepCategory(txs, filter)
  {
  }

  /** The rows of category "Task", computed row by row. */
  lemma TaskRows()
    ensures KeepCategory(Transactions, "Task") == [Transactions[1], Transactions[3]]
  {
    var t := Transactions;
    assert t[6..] == [];
    KeepStep(t, 5, "Task");
    KeepStep(t, 4, "Task");
    KeepStep(t, 3, "Task");
    KeepStep(t, 2, "Task");
    KeepStep(t, 1, "Task");
    KeepStep(t, 0, "Task");
    assert t[0..] == t;
  }

  /** One step of the filter over a suffix. */
  lemma KeepStep(txs: seq<Transaction>, k: nat, category: string)
    requires k < |txs|
    ensures KeepCategory(txs[k..], category)
      == (if txs[k].category == category then [txs[k]] else []) + KeepCategory(txs[k + 1..], category)
  {
    assert txs[k..][1..] == txs[k + 1..];
  }

  /** The initial filter shows the whole list, in order. */
  lemma InitialShowsAll()
    ensures Filtered(Transactions, InitialFilter) == Transactions
  {
  }

  // ---------------------------------------------------------------------
  // The filter labels, corrected

  /** The category a filter button is evidently meant to select: the
      "Tasks" button stands for the "Task" category, every other button is
      spelled like its category. */
  function LabelCategory(button: string): string {
    if button == "Tasks" then "Task" else button
  }

  /** The filter with each button mapped to its category. */
  function FilteredByLabel(txs: seq<Transaction>, button: string): (r: seq<Transaction>)
    ensures button == "All" ==> r == txs
    ensures button != "All" ==> forall i :: 0 <= i < |r| ==> r[i].category == LabelCategory(button)
    ensures forall i :: 0 <= i < |txs| && (button == "All" || txs[i].category == LabelCategory(button)) ==> txs[i] in r
    ensures forall x :: multiset(r)[x] == (if button == "All" || x.category == LabelCategory(button) then multiset(txs)[x] else 0)
    ensures IsSubsequence(r, txs)
  {
    Filtered(txs, LabelCategory(button))
  }

  /** With the labels mapped, every button shows at least one transaction. */
  lemma EveryLabelShowsRows()
    ensures forall j :: 0 <= j < |Filters| ==> |FilteredByLabel(Transactions, Filters[j])| > 0
  {
    forall j | 0 <= j < |Filters|
      ensures |FilteredByLabel(Transactions, Filters[j])| > 0
    {
      if j == 1 { ButtonShowsRow(Filters[j], 0); }
      else if j == 2 { ButtonShowsRow(Filters[j], 2); }
      else if j == 3 { ButtonShowsRow(Filters[j], 4); }
      else if j == 4 { ButtonShowsRow(Filters[j], 1); }
      else if j == 5 { ButtonShowsRow(Filters[j], 5); }
    }
  }

  /** A button whose category some transaction has shows that transaction. */
  lemma ButtonShowsRow(button: string, k: nat)
    requires k < |Transactions|
    requires Transactions[k].category == LabelCategory(button)
    ensures |FilteredByLabel(Transactions, button)| > 0
  {
    assert Transactions[k] in FilteredByLabel(Transactions, button);
  }

  /** With the labels mapped, every transaction is selected by some button
      other than "All". */
  lemma EveryRowHasALabel()
    ensures forall i :: 0 <= i < |Transactions| ==>
      exists j :: 1 <= j < |Filters| && LabelCategory(Filters[j]) == Transactions[i].category
  {
    assert LabelCategory(Filters[1]) == Transactions[0].category;
    assert LabelCategory(Filters[4]) == Transactions[1].category;
    assert LabelCategory(Filters[2]) == Transactions[2].category;
    assert LabelCategory(Filters[4]) == Transactions[3].category;
    assert LabelCategory(Filters[3]) == Transactions[4].category;
    assert LabelCategory(Filters[5]) == Transactions[5].category;
  }
}
