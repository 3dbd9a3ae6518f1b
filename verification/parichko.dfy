/** The ledger state of the Parichko window and the operations its buttons run:
    add, update, delete, undo, the date sort and the summary. What the form
    fields and the table selection hold arrives as parameters. */
module Tracker {
  import opened Wrappers
  import opened DateText
  import opened Transactions
  import opened DateSort
  import opened Undo

  /** Why an operation was refused; the source shows each as a message dialog
      and leaves the ledger alone. */
  datatype Rejection =
    | EmptyField          // the trimmed date or amount text is empty
    | MalformedDate       // the trimmed date does not match \d{4}-\d{2}-\d{2}
    | NotANumber          // the amount does not parse as a number
    | NonPositiveAmount   // the amount is zero or negative
    | NoSelection         // no table row, or a row past the end, is selected

  /** The validated form fields: the trimmed date and the parsed amount. */
  datatype Fields = Fields(date: string, amount: real)

  /** The checks add and update make on the form, in the source's order. The
      amount text is trimmed before the emptiness check; parsedAmount is what
      Double.parseDouble makes of it, None when it throws. */
  function Validate(dateText: string, amountText: string, parsedAmount: Option<real>): (r: Result<Fields, Rejection>)
    ensures r.Success? <==>
      Trim(dateText) != [] && Trim(amountText) != [] && MatchesDatePattern(Trim(dateText)) &&
      parsedAmount.Some? && parsedAmount.value > 0.0
    ensures r.Success? ==> r.value == Fields(Trim(dateText), parsedAmount.value)
    ensures r.Success? ==> |r.value.date| == 10 && !IsTrimmed(r.value.date[0]) && r.value.amount > 0.0
    ensures r == Failure(EmptyField) <==> Trim(dateText) == [] || Trim(amountText) == []
    ensures r.Failure? ==> r.error != NoSelection
  {
    var date, amount := Trim(dateText), Trim(amountText);
    if date == [] || amount == [] then Failure(EmptyField)
    else if !MatchesDatePattern(date) then Failure(MalformedDate)
    else if parsedAmount.None? then Failure(NotANumber)
    else if parsedAmount.value <= 0.0 then Failure(NonPositiveAmount)
    else Success(Fields(date, parsedAmount.value))
  }

  /** On fields with nothing to trim, the checks come down to the date's shape,
      whether the amount parsed, and its sign. */
  lemma ValidateUnpadded(dateText: string, amountText: string, parsedAmount: Option<real>)
    requires dateText != [] && !IsTrimmed(dateText[0]) && !IsTrimmed(dateText[|dateText| - 1])
    requires amountText != [] && !IsTrimmed(amountText[0]) && !IsTrimmed(amountText[|amountText| - 1])
    ensures Validate(dateText, amountText, parsedAmount) ==
      if !MatchesDatePattern(dateText) then Failure(MalformedDate)
      else if parsedAmount.None? then Failure(NotANumber)
      else if parsedAmount.value <= 0.0 then Failure(NonPositiveAmount)
      else Success(Fields(dateText, parsedAmount.value))
  {
    TrimUnpadded(dateText);
    TrimUnpadded(amountText);
  }

  /** A date of the right shape is accepted even when no calendar has it. */
  lemma AcceptsImpossibleDate()
    ensures Validate("2024-13-40", "10", Some(10.0)) == Success(Fields("2024-13-40", 10.0))
  {
    DatePatternIsShapeOnly();
    ValidateUnpadded("2024-13-40", "10", Some(10.0));
  }

  /** Blanks around the date and the amount are trimmed away before the checks. */
  lemma AcceptsPaddedFields()
    ensures Validate(" 2024-01-01\t", " 10 ", Some(10.0)) == Success(Fields("2024-01-01", 10.0))
  {
    DatePatternIsShapeOnly();
    assert [' '] + "2024-01-01" + ['\t'] == " 2024-01-01\t";
    assert [' '] + "10" + [' '] == " 10 ";
    TrimPadded(' ', "2024-01-01", '\t');
    TrimPadded(' ', "10", ' ');
  }

  /** A negative amount and an unparsable amount are each refused with their
      own reason. */
  lemma RefusesBadAmounts()
    ensures Validate("2024-01-01", "-5", Some(-5.0)) == Failure(NonPositiveAmount)
    ensures Validate("2024-01-01", "ten", None) == Failure(NotANumber)
  {
    DatePatternIsShapeOnly();
    ValidateUnpadded("2024-01-01", "-5", Some(-5.0));
    ValidateUnpadded("2024-01-01", "ten", None);
  }

  /** A blank amount is refused as an empty field, before anything else. */
  lemma RefusesBlankAmount()
    ensures Validate("2024-01-01", "  ", None) == Failure(EmptyField)
  {
    assert forall i :: 0 <= i < |"  "| ==> IsTrimmed("  "[i]);
  }

  /** A date with slashes for dashes is refused as malformed. */
  lemma RefusesSlashedDate()
    ensures Validate("2024/01/01", "10", Some(10.0)) == Failure(MalformedDate)
  {
    DatePatternIsShapeOnly();
    ValidateUnpadded("2024/01/01", "10", Some(10.0));
  }

  /** One blank on each side of unpadded text is trimmed away. */
  lemma TrimPadded(before: char, s: string, after: char)
    requires IsTrimmed(before) && IsTrimmed(after)
    requires s != [] && !IsTrimmed(s[0]) && !IsTrimmed(s[|s| - 1])
    ensures Trim([before] + s + [after]) == s
  {
    var padded := [before] + s + [after];
    var t := s + [after];
    assert padded[1..] == t && padded[0] == before && t[0] == s[0];
    assert LeadingBlanks(padded) == 1;
    assert t[|t| - 1] == after && t[|t| - 2] == s[|s| - 1] && t[..|t| - 1] == s;
    assert TrailingBlanks(t) == 1;
  }

  /** What a successful add leaves: the old entries and the new one, in date
      order, one entry more than before. */
  lemma AddedEntryIsListed(s: seq<Transaction>, t: Transaction)
    ensures var r := SortByDate(s + [t]);
      |r| == |s| + 1 && t in r && SortedByDate(r) && multiset(r) == multiset(s) + multiset{t}
  {
    SortByDateIsStableSort(s + [t]);
    assert t in multiset(SortByDate(s + [t]));
  }

  /** What a successful update leaves: the entry at the row swapped for the new
      one, in date order, as many entries as before. */
  lemma UpdatedEntryIsListed(s: seq<Transaction>, row: nat, t: Transaction)
    requires row < |s|
    ensures var r := SortByDate(s[row := t]);
      |r| == |s| && t in r && SortedByDate(r) &&
      multiset(r) + multiset{s[row]} == multiset(s) + multiset{t}
  {
    SortByDateIsStableSort(s[row := t]);
    MultisetUpdate(s, row, t);
    assert t in multiset(SortByDate(s[row := t]));
  }

  /** What a delete leaves: the other entries, still in date order, one entry
      fewer. */
  lemma DeletedEntryIsGone(s: seq<Transaction>, row: nat)
    requires SortedByDate(s) && row < |s|
    ensures var r := s[..row] + s[row + 1..];
      |r| == |s| - 1 && SortedByDate(r) && multiset(r) == multiset(s) - multiset{s[row]}
  {
    SortedRemoveAt(s, row);
    MultisetRemoveAt(s, row);
  }

  /** The application's ledger state: the list of entries, the undo stack (its
      top is the last element) and the per-category totals. */
  class Parichko {
    var transactions: seq<Transaction>
    var undoStack: seq<UndoAction>
    var categoryTotals: map<string, real>

    /** Between operations the list is in date order and the category totals
        are those of the list. */
    ghost predicate Valid()
      reads this
    {
      SortedByDate(transactions) && categoryTotals == CategoryTotals(transactions)
    }

    /** Start-up: the loaded entries are sorted and summed; nothing can be undone. */
    constructor (loaded: seq<Transaction>)
      ensures Valid()
      ensures transactions == SortByDate(loaded) && undoStack == []
    {
      transactions := loaded;
      undoStack := [];
      categoryTotals := map[];
      new;
      SortTransactionsByDate();
      var _ := UpdateSummary();
    }

    /** List.sort with the date comparator: a stable sort of the list in place. */
    method SortTransactionsByDate()
      modifies this`transactions
      ensures transactions == SortByDate(old(transactions))
      ensures SortedByDate(transactions) && multiset(transactions) == multiset(old(transactions))
      ensures forall d :: OfDate(transactions, d) == OfDate(old(transactions), d)
    {
      SortByDateIsStableSort(transactions);
      transactions := SortByDate(transactions);
    }

    /** Rebuilds the category totals from empty and adds up income and expense
        in one pass over the list. */
    method UpdateSummary() returns (summary: Summary)
      modifies this`categoryTotals
      ensures categoryTotals == CategoryTotals(transactions)
      ensures summary.income == Sum(transactions, IncomeEntries)
      ensures summary.expense == Sum(transactions, ExpenseEntries)
      ensures summary.income + summary.expense == Sum(transactions, AllEntries)
      ensures summary.balance == summary.income - summary.expense
      ensures summary.count == |transactions|
    {
      categoryTotals := map[];
      var income, expense := 0.0, 0.0;
      for i := 0 to |transactions|
        invariant income == Sum(transactions[..i], IncomeEntries)
        invariant expense == Sum(transactions[..i], ExpenseEntries)
        invariant categoryTotals == CategoryTotals(transactions[..i])
      {
        var t := transactions[i];
        assert transactions[..i + 1] == transactions[..i] + [t];
        SumStep(transactions[..i], t, IncomeEntries);
        SumStep(transactions[..i], t, ExpenseEntries);
        if TypeName(t.kind) == "Income" {
          income := income + t.amount;
        } else {
          expense := expense + t.amount;
        }
        var prior := if t.category in categoryTotals then categoryTotals[t.category] else 0.0;
        categoryTotals := categoryTotals[t.category := prior + t.amount];
      }
      assert transactions[..|transactions|] == transactions;
      IncomeExpenseSplit(transactions);
      summary := Summary(income, expense, income - expense, |transactions|);
    }

    /** The Add button. A refused form changes nothing. Otherwise the new entry is
        appended, an Add record naming it and its pre-sort row is pushed, and the
        list is re-sorted and re-summed. */
    method AddTransaction(dateText: string, typeName: string, amountText: string,
                          parsedAmount: Option<real>, category: string)
      returns (r: Result<Transaction, Rejection>)
      requires Valid()
      modifies this
      ensures Valid()
      ensures var v := Validate(dateText, amountText, parsedAmount);
        v.Failure? ==> r == Failure(v.error) && unchanged(this)
      ensures var v := Validate(dateText, amountText, parsedAmount);
        v.Success? ==> (
          r.Success? && fresh(r.value) &&
          r.value.date == v.value.date && r.value.amount == v.value.amount &&
          r.value.kind == KindOf(typeName) && r.value.category == category &&
          transactions == SortByDate(old(transactions) + [r.value]) &&
          undoStack == old(undoStack) + [UndoAction(Add, r.value, |old(transactions)|)])
    {
      var v := Validate(dateText, amountText, parsedAmount);
      if v.Failure? {
        return Failure(v.error);
      }
      var t := new Transaction(v.value.date, v.value.amount, category, KindOf(typeName));
      transactions := transactions + [t];
      undoStack := undoStack + [UndoAction(Add, t, |transactions| - 1)];
      assert undoStack == old(undoStack) + [UndoAction(Add, t, |old(transactions)|)];
      ghost var pushed := undoStack;
      SortTransactionsByDate();
      assert undoStack == pushed;
      var _ := UpdateSummary();
      assert undoStack == pushed;
      r := Success(t);
    }

    /** The Delete button on the selected row (-1 when none is selected). A row
        inside the list is removed, the others keep their order, and a Delete
        record with the entry and the row is pushed; there is no re-sort. Any
        other row changes nothing. */
    method DeleteTransaction(row: int) returns (r: Result<Transaction, Rejection>)
      requires Valid()
      modifies this
      ensures Valid()
      ensures !(0 <= row < |old(transactions)|) ==> r == Failure(NoSelection) && unchanged(this)
      ensures 0 <= row < |old(transactions)| ==>
        r == Success(old(transactions)[row]) &&
        transactions == old(transactions)[..row] + old(transactions)[row + 1..] &&
        undoStack == old(undoStack) + [UndoAction(Delete, old(transactions)[row], row)]
    {
      if 0 <= row < |transactions| {
        var removed := transactions[row];
        SortedRemoveAt(transactions, row);
        transactions := transactions[..row] + transactions[row + 1..];
        undoStack := undoStack + [UndoAction(Delete, removed, row)];
        var _ := UpdateSummary();
        r := Success(removed);
      } else {
        r := Failure(NoSelection);
      }
    }

    /** The Update button on the selected row. The row is checked first, then the
        form as for add; either refusal changes nothing. Otherwise an Update
        record with the old entry and the row is pushed, a new entry replaces the
        old one in that row, and the list is re-sorted and re-summed. */
    method UpdateTransaction(row: int, dateText: string, typeName: string, amountText: string,
                             parsedAmount: Option<real>, category: string)
      returns (r: Result<Transaction, Rejection>)
      requires Valid()
      modifies this
      ensures Valid()
      ensures !(0 <= row < |old(transactions)|) ==> r == Failure(NoSelection) && unchanged(this)
      ensures var v := Validate(dateText, amountText, parsedAmount);
        0 <= row < |old(transactions)| && v.Failure? ==> r == Failure(v.error) && unchanged(this)
      ensures var v := Validate(dateText, amountText, parsedAmount);
        0 <= row < |old(transactions)| && v.Success? ==> (
          r.Success? && fresh(r.value) &&
          r.value.date == v.value.date && r.value.amount == v.value.amount &&
          r.value.kind == KindOf(typeName) && r.value.category == category &&
          transactions == SortByDate(old(transactions)[row := r.value]) &&
          undoStack == old(undoStack) + [UndoAction(Update, old(transactions)[row], row)])
    {
      if row < 0 || row >= |transactions| {
        return Failure(NoSelection);
      }
      var v := Validate(dateText, amountText, parsedAmount);
      if v.Failure? {
        return Failure(v.error);
      }
      var oldTransaction := transactions[row];
      undoStack := undoStack + [UndoAction(Update, oldTransaction, row)];
      var updated := new Transaction(v.value.date, v.value.amount, category, KindOf(typeName));
      transactions := transactions[row := updated];
      SortTransactionsByDate();
      var _ := UpdateSummary();
      r := Success(updated);
    }

    /** The Undo button. With nothing recorded nothing changes. Otherwise exactly
        one record is popped (none is pushed), its inverse is applied to the
        list, and the list is re-sorted and re-summed. */
    method UndoTransaction() returns (undone: Option<UndoAction>)
      requires Valid()
      modifies this
      ensures Valid()
      ensures old(undoStack) == [] ==> undone == None && unchanged(this)
      ensures old(undoStack) != [] ==>
        undone == Some(old(undoStack)[|old(undoStack)| - 1]) &&
        undoStack == old(undoStack)[..|old(undoStack)| - 1] &&
        transactions == SortByDate(Revert(old(transactions), undone.value))
    {
      if undoStack == [] {
        return None;
      }
      var action := undoStack[|undoStack| - 1];
      undoStack := undoStack[..|undoStack| - 1];
      ghost var popped := undoStack;
      ApplyInverse(action);
      SortTransactionsByDate();
      assert undoStack == popped;
      var _ := UpdateSummary();
      assert undoStack == popped;
      undone := Some(action);
    }

    /** The branch of undo that matches on the record's type and edits the list:
        remove the added entry by identity, re-insert the deleted entry at its
        row (at the end when the row no longer fits), or write the replaced
        entry back at its row when that row exists. */
    method ApplyInverse(action: UndoAction)
      modifies this`transactions
      ensures transactions == Revert(old(transactions), action)
    {
      match action.actionType {
        case Add =>
          var i := IndexOf(transactions, action.transaction);
          if 0 <= i {
            RemoveFirstAt(transactions, action.transaction);
            transactions := transactions[..i] + transactions[i + 1..];
          }
        case Delete =>
          if 0 <= action.index <= |transactions| {
            transactions := transactions[..action.index] + [action.transaction] + transactions[action.index..];
          } else {
            transactions := transactions + [action.transaction];
          }
        case Update =>
          if 0 <= action.index < |transactions| {
            transactions := transactions[action.index := action.transaction];
          }
      }
    }
  }

  /** The salary goes in first; the food expense, dated earlier, is sorted in
      before it. */
  lemma ScenarioOrder(salary: Transaction, food: Transaction)
    requires salary.date == "2024-03-01" && food.date == "2024-02-15"
    ensures SortByDate([] + [salary]) == [salary]
    ensures SortByDate([salary] + [food]) == [food, salary]
  {
    assert [] + [salary] == [salary] && [salary][..0] == [];
    assert salary.date == "2024-0" + "3-01" && food.date == "2024-0" + "2-15";
    CompareToConcat("2024-0", "3-01", "2024-0", "2-15");
    assert [salary] + [food] == [salary, food] && [salary, food][..1] == [salary];
  }

  lemma ScenarioTotals(food: Transaction, salary: Transaction)
    requires food.kind == Expense && food.amount == 40.0
    requires salary.kind == Income && salary.amount == 100.0
    ensures Sum([food, salary], IncomeEntries) == 100.0
    ensures Sum([food, salary], ExpenseEntries) == 40.0
  {
    assert TypeName(food.kind)[0] == 'E';
    assert [food, salary] == [food] + [salary] && [food] == [] + [food];
    SumStep([], food, IncomeEntries);
    SumStep([], food, ExpenseEntries);
    SumStep([food], salary, IncomeEntries);
    SumStep([food], salary, ExpenseEntries);
  }

  /** Undoing the add of the food expense leaves the salary alone. */
  lemma ScenarioUndo(food: Transaction, salary: Transaction)
    requires food != salary
    ensures SortByDate(Revert([food, salary], UndoAction(Add, food, 1))) == [salary]
  {
    assert [food, salary][1..] == [salary];
    assert Revert([food, salary], UndoAction(Add, food, 1)) == [salary];
    assert [salary][..0] == [];
  }

  /** A worked example, stated on the functions the ledger's operations are
      specified by: on an empty ledger, add a March salary of 100
      and then a February food expense of 40. The list shows February first;
      income is 100 and expense 40; undoing the last add (the record Add(food, 1))
      leaves the salary alone. */
  lemma WorkedExample(salary: Transaction, food: Transaction)
    requires salary.date == "2024-03-01" && salary.kind == Income && salary.amount == 100.0
    requires food.date == "2024-02-15" && food.kind == Expense && food.amount == 40.0
    requires salary != food
    ensures var afterAdds := SortByDate(SortByDate([] + [salary]) + [food]);
      afterAdds == [food, salary] &&
      Sum(afterAdds, IncomeEntries) == 100.0 && Sum(afterAdds, ExpenseEntries) == 40.0 &&
      SortByDate(Revert(afterAdds, UndoAction(Add, food, |[salary]|))) == [salary]
  {
    ScenarioOrder(salary, food);
    ScenarioTotals(food, salary);
    ScenarioUndo(food, salary);
  }
}
