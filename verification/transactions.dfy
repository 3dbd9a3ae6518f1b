/** The ledger's entries and the aggregates computed over them: income, expense,
    the grand total and the per-category totals. */
module Transactions {

  /** The two subclasses of the source's abstract Transaction, as a closed choice. */
  datatype Kind = Income | Expense

  /** getType(): the label each subclass reports. */
  function TypeName(k: Kind): (name: string)
    ensures name == "Income" || name == "Expense"
    ensures KindOf(name) == k
  {
    match k
    case Income => "Income"
    case Expense => "Expense"
  }

  /** The subclass chosen for a type label: "Income" gives an income entry, any
      other label an expense entry. */
  function KindOf(typeName: string): Kind {
    if typeName == "Income" then Income else Expense
  }

  /** One dated money movement. Its fields never change after construction, and
      two entries are the same entry only when they are the same object: the
      source compares entries by identity. */
  class Transaction {
    const date: string
    const amount: real
    const category: string
    const kind: Kind

    constructor (date: string, amount: real, category: string, kind: Kind)
      ensures this.date == date && this.amount == amount
      ensures this.category == category && this.kind == kind
    {
      this.date := date;
      this.amount := amount;
      this.category := category;
      this.kind := kind;
    }
  }

  /* ---------- aggregates ---------- */

  /** Which entries an aggregate adds up. The summary classifies an entry as
      income when its type label is "Income" and as expense otherwise. */
  datatype Selector = AllEntries | IncomeEntries | ExpenseEntries | InCategory(category: string)

  predicate Selects(sel: Selector, t: Transaction) {
    match sel
    case AllEntries => true
    case IncomeEntries => TypeName(t.kind) == "Income"
    case ExpenseEntries => TypeName(t.kind) != "Income"
    case InCategory(c) => t.category == c
  }

  /** The sum of the amounts of the selected entries, accumulated front to back. */
  function Sum(s: seq<Transaction>, sel: Selector): real {
    if s == [] then 0.0
    else Sum(s[..|s| - 1], sel) + (if Selects(sel, s[|s| - 1]) then s[|s| - 1].amount else 0.0)
  }

  /** Appending one entry adds its amount to every aggregate that selects it. */
  lemma SumStep(s: seq<Transaction>, t: Transaction, sel: Selector)
    ensures Sum(s + [t], sel) == Sum(s, sel) + (if Selects(sel, t) then t.amount else 0.0)
  {
    assert (s + [t])[..|s|] == s;
  }

  /** Every entry is either income or expense, so the two totals add up to the
      total of all amounts. */
  lemma {:induction false} IncomeExpenseSplit(s: seq<Transaction>)
    ensures Sum(s, IncomeEntries) + Sum(s, ExpenseEntries) == Sum(s, AllEntries)
  {
    if s != [] {
      IncomeExpenseSplit(s[..|s| - 1]);
    }
  }

  /** Sums split over concatenation. */
  lemma {:induction false} SumAppend(a: seq<Transaction>, b: seq<Transaction>, sel: Selector)
    ensures Sum(a + b, sel) == Sum(a, sel) + Sum(b, sel)
    decreases |b|
  {
    if b == [] {
      assert a + b == a;
    } else {
      var n := |b| - 1;
      assert (a + b)[..|a + b| - 1] == a + b[..n];
      SumAppend(a, b[..n], sel);
    }
  }

  /** An aggregate over entries none of which is selected is zero. */
  lemma {:induction false} SumOfUnselected(s: seq<Transaction>, sel: Selector)
    requires forall i :: 0 <= i < |s| ==> !Selects(sel, s[i])
    ensures Sum(s, sel) == 0.0
  {
    if s != [] {
      SumOfUnselected(s[..|s| - 1], sel);
    }
  }

  /** Taking one entry out of a list takes its amount out of every aggregate
      that selects it. */
  lemma SumRemoveAt(s: seq<Transaction>, k: nat, sel: Selector)
    requires k < |s|
    ensures Sum(s, sel) == Sum(s[..k] + s[k + 1..], sel) + (if Selects(sel, s[k]) then s[k].amount else 0.0)
  {
    assert s == (s[..k] + [s[k]]) + s[k + 1..];
    SumAppend(s[..k] + [s[k]], s[k + 1..], sel);
    SumAppend(s[..k], [s[k]], sel);
    SumAppend(s[..k], s[k + 1..], sel);
    assert [s[k]][..0] == [];
  }

  lemma MultisetRemoveAt<T>(s: seq<T>, k: nat)
    requires k < |s|
    ensures multiset(s[..k] + s[k + 1..]) == multiset(s) - multiset{s[k]}
  {
    assert s == s[..k] + [s[k]] + s[k + 1..];
  }

  /** Aggregates do not depend on the order of the entries. */
  lemma {:induction false} SumOfPermutation(a: seq<Transaction>, b: seq<Transaction>, sel: Selector)
    requires multiset(a) == multiset(b)
    ensures Sum(a, sel) == Sum(b, sel)
    decreases |a|
  {
    if a == [] {
      assert |b| == |multiset(b)| == 0;
    } else {
      var n := |a| - 1;
      assert a[n] in multiset(b);
      var k :| 0 <= k < |b| && b[k] == a[n];
      MultisetRemoveAt(a, n);
      MultisetRemoveAt(b, k);
      assert a[..n] + a[n + 1..] == a[..n];
      SumOfPermutation(a[..n], b[..k] + b[k + 1..], sel);
      SumRemoveAt(b, k, sel);
    }
  }

  /** The categories that occur in a list of entries. */
  function CategoriesOf(s: seq<Transaction>): set<string> {
    set t | t in s :: t.category
  }

  /** The per-category totals as the summary loop builds them: from an empty map,
      each entry in turn adds its amount to its category's running total, which
      starts from zero for a category not seen before. */
  function CategoryTotals(s: seq<Transaction>): map<string, real> {
    if s == [] then map[]
    else
      var m, t := CategoryTotals(s[..|s| - 1]), s[|s| - 1];
      m[t.category := (if t.category in m then m[t.category] else 0.0) + t.amount]
  }

  /** What the totals mean: a key for each category that occurs and no other,
      mapped to the sum of the amounts of its entries, income and expense alike. */
  lemma {:induction false} CategoryTotalsMeaning(s: seq<Transaction>)
    ensures CategoryTotals(s).Keys == CategoriesOf(s)
    ensures forall c :: c in CategoryTotals(s) ==> CategoryTotals(s)[c] == Sum(s, InCategory(c))
  {
    if s != [] {
      var p, t := s[..|s| - 1], s[|s| - 1];
      assert s == p + [t];
      CategoryTotalsMeaning(p);
      assert CategoriesOf(s) == CategoriesOf(p) + {t.category} by {
        forall u | u in s ensures u in p || u == t { }
      }
      forall c | c in CategoryTotals(s) ensures CategoryTotals(s)[c] == Sum(s, InCategory(c)) {
        SumStep(p, t, InCategory(c));
        if c == t.category && c !in CategoryTotals(p) {
          forall i | 0 <= i < |p| ensures !Selects(InCategory(c), p[i]) {
            assert p[i] in p;
          }
          SumOfUnselected(p, InCategory(c));
        }
      }
    }
  }

  /** The per-category totals do not depend on the order of the entries. */
  lemma CategoryTotalsOfPermutation(a: seq<Transaction>, b: seq<Transaction>)
    requires multiset(a) == multiset(b)
    ensures CategoryTotals(a) == CategoryTotals(b)
  {
    assert forall t :: t in a <==> t in b by {
      forall t ensures t in a <==> t in b {
        assert t in a <==> t in multiset(a);
        assert t in b <==> t in multiset(b);
      }
    }
    assert CategoriesOf(a) == CategoriesOf(b);
    CategoryTotalsMeaning(a);
    CategoryTotalsMeaning(b);
    forall c | c in CategoriesOf(a) ensures CategoryTotals(a)[c] == CategoryTotals(b)[c] {
      SumOfPermutation(a, b, InCategory(c));
    }
  }

  /** What the summary line shows. */
  datatype Summary = Summary(income: real, expense: real, balance: real, count: nat)
}
