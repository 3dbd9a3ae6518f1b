# Parichko ledger in Dafny

Parichko is a small Swing expense tracker. Behind its window is an in-memory
ledger:

- a list of transactions, each an income or an expense with a date, an amount and a category;
- an undo stack of records, each saying what was added, deleted or updated;
- a per-category table of totals.

The Add, Delete, Update and Undo buttons edit the list in place, and each one
pushes or pops one undo record. Add, Update and Undo then re-sort the list by
date. Delete does not re-sort, because removing a row keeps the list in date
order. After every change the summary (income, expense, balance, count,
category totals) is recomputed.

This project models that ledger and proves what its operations do:

- `transactions.dfy`: the transaction values and the aggregates over them.
- `date_text.dfy`: the text handling the ledger relies on. This covers Java's
  `String.trim`, the `\d{4}-\d{2}-\d{2}` date check and `String.compareTo`.
- `date_sort.dfy`: the stable sort by date.
- `undo.dfy`: the undo records and the inverse each one applies.
- `parichko.dfy`: the `Parichko` class. It holds the three pieces of state as
  fields and its methods are the operations. The form fields, the selected
  table row and the parsed amount arrive as parameters.

How entries are compared and sorted:

- **Entries are compared by identity.** A transaction is a class with constant
  fields only. Two entries are the same only when they are the same object, as
  in the source, where `Transaction` does not override `equals`. So undo of an
  add removes that very object (`transactions.remove(Object)`), even if an equal
  twin is in the list.
- **The sort is specified as an insertion sort.** `SortByDate` is a stable
  insertion sort with the source's comparator, `t1.getDate().compareTo(t2.getDate())`.
  `List.sort` is stable, and `StableSortIsUnique` proves that a stable sort by
  date has only one possible result. So `SortByDate` returns exactly what the
  source's sort returns.

Two behaviours of the code are kept as written:

- **The date check is on the shape only.** "2024-13-40" is accepted
  (`AcceptsImpossibleDate`), although a calendar check might be expected.
- **Undo of an update can write to the wrong row.** Undo writes the old entry
  back at the row it was taken from, but the re-sort after the update may have
  moved other entries into that row. Undo then overwrites an unrelated entry.
  `UndoUpdateContents` says exactly when the original contents come back.
  `UpdateThenUndoRestores` shows that in that case the very same list comes
  back, order included.
  `StaleUpdateUndo` shows a two-entry list where one entry is lost.

## Model

| member | source | states |
|---|---|---|
| Transactions.TypeName | Parichko.java:431-445 | an income entry reports "Income" and an expense entry "Expense"; the type label chosen in the form maps back to the same kind |
| Transactions.Transaction.constructor | Parichko.java:405-414 | a transaction holds exactly the date, amount, category and kind it was made with, and never changes |
| Transactions.SumStep | Parichko.java:370-375 | one step of the summary loop adds the entry's amount to every total that selects it and leaves the others alone |
| Transactions.IncomeExpenseSplit | Parichko.java:369-375 | every entry is counted as income or as expense, so income plus expense is the total of all amounts |
| Transactions.SumOfPermutation | Parichko.java:370-375 | the totals do not depend on the order of the list, so re-sorting never changes them |
| Transactions.CategoryTotalsMeaning | Parichko.java:367-378 | the rebuilt category map has a key for each category in the list and no other, mapped to the sum of that category's amounts, income and expense alike |
| Transactions.CategoryTotalsOfPermutation | Parichko.java:377-378 | the category totals do not depend on the order of the list |
| DateText.CompareTo | Parichko.java:401 | String.compareTo returns zero exactly when the two dates are equal |
| DateText.CompareToAntisymmetric | Parichko.java:401 | swapping the two dates negates the comparison |
| DateText.CompareToTransitive | Parichko.java:401 | "not after" is transitive, so the comparator is a total preorder the sort can use |
| DateText.Trim | Parichko.java:150-152 | trim drops the leading characters at or below U+0020 and, after the kept part, only such characters; the kept part starts and ends with a character above U+0020, or is empty exactly when nothing else is there |
| DateText.TrimIdempotent | Parichko.java:150-152 | trimming trimmed text changes nothing |
| DateText.DatePatternIsShapeOnly | Parichko.java:159 | the pattern accepts any four-two-two digit shape, including impossible dates, and refuses short fields, other separators and surrounding blanks |
| DateText.DateOrderIsChronological | Parichko.java:401 | for dates that passed the check, comparing the text orders them by year, then month, then day |
| DateSort.SortByDateIsStableSort | Parichko.java:400-402 | the sort returns a permutation of the list, in date order, with entries of equal date in their original relative order |
| DateSort.StableSortIsUnique | Parichko.java:400-402 | two date-ordered lists with the same entries in the same order within each date are equal |
| DateSort.AnyStableSortAgrees | Parichko.java:400-402 | any stable sort by date, List.sort among them, returns SortByDate's result |
| DateSort.SortedUnchanged | Parichko.java:400-402 | sorting a list already in date order leaves it exactly as it is |
| DateSort.SortedRemoveAt | Parichko.java:195-201 | removing any row keeps the list in date order, which is why delete does not re-sort |
| Undo.IndexOf | Parichko.java:273 | the first row holding that very object, or -1 exactly when it is absent |
| Undo.RemoveFirst | Parichko.java:273 | remove(Object) drops one occurrence of the object and leaves a list without it unchanged |
| Undo.RemoveFirstAt | Parichko.java:273 | the occurrence removed is the one at the first row holding the object |
| Undo.Revert | Parichko.java:271-287 | undo of ADD takes the entry out; undo of DELETE puts it back at the stored row, or at the end when the row is out of range, with the entries before and after in their old order; undo of UPDATE writes the old entry at the stored row when that row exists and otherwise changes nothing |
| Undo.RemoveInserted | Parichko.java:273 | removing by identity an entry just sorted into a list gives that list back |
| Undo.AddThenUndoRestores | Parichko.java:269-289 | add then undo gives back the sorted list, which is the original list when it was sorted |
| Undo.DeleteThenUndoRestores | Parichko.java:275-281 | delete of any row then undo gives back the sorted list, which is the original list when it was sorted |
| Undo.UndoUpdateContents | Parichko.java:282-286 | update then undo yields the original entries with the new entry in place of whatever the sort moved to the row; the contents come back exactly when the new entry stayed at that row |
| Undo.SortKeepsUpdatedRow | Parichko.java:249-251 | when a new entry replaces a row of a sorted list and the sort leaves it at that row, the sort moves nothing at all |
| Undo.UpdateThenUndoRestores | Parichko.java:282-289 | update of a row of a sorted list to a new entry, then undo, gives back exactly the original list, order included, whenever the sort left the new entry at its row |
| Undo.StaleUpdateUndo | Parichko.java:282-286 | a January entry updated to March moves to the second row, and undo then overwrites the February entry there instead |
| Tracker.Validate | Parichko.java:150-168 | the form is accepted exactly when the trimmed date and amount are non-empty, the date matches the pattern and the amount parses to a positive number; emptiness is reported first |
| Tracker.ValidateUnpadded | Parichko.java:154-168 | with nothing to trim, the checks come down to shape, then parse, then sign, in that order |
| Tracker.AcceptsImpossibleDate | Parichko.java:159 | "2024-13-40" with amount 10 passes validation |
| Tracker.AcceptsPaddedFields | Parichko.java:150-152 | blanks and tabs around the date and the amount are trimmed away before the checks |
| Tracker.RefusesBadAmounts | Parichko.java:164-168 | "-5" is refused as not positive, and an unparsable amount as not a number |
| Tracker.RefusesBlankAmount | Parichko.java:154-157 | an amount of blanks only is refused as an empty field |
| Tracker.RefusesSlashedDate | Parichko.java:159-162 | "2024/01/01" is refused as malformed |
| Tracker.AddedEntryIsListed | Parichko.java:179-183 | after a successful add the list has one more entry, holds the new one, keeps all the old ones and is in date order |
| Tracker.UpdatedEntryIsListed | Parichko.java:249-251 | after a successful update the list has the same length, holds the new entry instead of the old one at that row, and is in date order |
| Tracker.DeletedEntryIsGone | Parichko.java:195-197 | after a delete the list has one entry fewer, lacks exactly the removed one, and stays in date order |
| Tracker.Parichko.constructor | Parichko.java:140-143 | start-up sorts the loaded entries and computes their totals; nothing can be undone yet |
| Tracker.Parichko.SortTransactionsByDate | Parichko.java:400-402 | the list becomes its stable sort by date, a permutation of what it was |
| Tracker.Parichko.UpdateSummary | Parichko.java:366-385 | the category map is rebuilt to the per-category sums; income and expense are the sums over "Income" entries and over all others; balance is their difference; count is the list length |
| Tracker.Parichko.AddTransaction | Parichko.java:148-191 | a refused form changes nothing and reports why; otherwise a new entry with the form's values is appended, one ADD record with that entry and its pre-sort row is pushed, and the list is re-sorted; the list stays sorted and the totals stay those of the list |
| Tracker.Parichko.DeleteTransaction | Parichko.java:193-208 | a row outside the list changes nothing; otherwise exactly that row is removed, the rest keep their order, one DELETE record with the entry and the row is pushed, and there is no re-sort |
| Tracker.Parichko.UpdateTransaction | Parichko.java:210-261 | a bad row is refused before the form is checked, and either refusal changes nothing; otherwise one UPDATE record with the old entry and the row is pushed, a new entry replaces that row, and the list is re-sorted |
| Tracker.Parichko.UndoTransaction | Parichko.java:263-296 | an empty stack changes nothing; otherwise exactly one record is popped and none pushed, its inverse is applied, and the list is re-sorted and re-summed |
| Tracker.Parichko.ApplyInverse | Parichko.java:271-287 | the switch on the record's type turns the list into its inverse image under Revert |
| Tracker.WorkedExample | Parichko.java:179-185 | adding a March salary of 100 and then a February food expense of 40 lists February first and sums to income 100 and expense 40; undoing the last add leaves only the salary |

## Left out

- The Swing window is not modelled: construction, layout, listeners, message dialogs, `updateTable`, `populateFieldsFromSelection` and `clearInputFields`. What the form and the table selection hold becomes parameters, and a dialog becomes a `Rejection` value.
- `StatsPanel` is not modelled, because it is drawing code with floating-point scaling.
- `getRandomTip` is not modelled, because it is random and presentational.
- `loadTransactions`, `saveTransactions` and `toCSV` are file I/O and are not modelled. The constructor takes the loaded entries as a parameter.
- `Double.parseDouble` is not modelled. Its result arrives as the `parsedAmount` parameter, with `None` where it throws.
- Amounts are `real`, so double rounding is not captured. Neither are NaN and infinity. The source lets a NaN amount through, because `NaN <= 0` is false, and the model cannot express this.
- The summary label text and its `%.2f` formatting are left out. `UpdateSummary` returns the four numbers instead.
- Filling in a default date with `SimpleDateFormat` depends on the clock and the locale, and is left out.
- DateText.CompareTo: works on Unicode scalar values, whereas Java compares UTF-16 code units. The two orders differ only when a date holds characters above U+FFFF. A date entered in the form cannot, because it must pass the digit check. A date loaded from the file can: loading takes the first field as it is (Parichko.java:322-327), and start-up sorts it (Parichko.java:141). For such dates the model's order may differ from Java's.
- Tracker.WorkedExample: is stated on the functions the operations are specified by rather than by driving a `Parichko` object. Each operation's contract ties its new state to those functions.
