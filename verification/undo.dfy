/** The undo records and the inverse each one applies to the ledger's list. */
module Undo {
  import opened Transactions
  import opened DateSort
  import DateText

  /** UndoAction.ActionType. */
  datatype ActionType = Add | Delete | Update

  /** One record on the undo stack: what was done, the entry concerned (the new
      entry for Add, the removed entry for Delete, the replaced entry for Update)
      and a row index. The index of an Add record is never read. */
  datatype UndoAction = UndoAction(actionType: ActionType, transaction: Transaction, index: int)

  /** List.indexOf with identity equality: the first row holding t, or -1. */
  function IndexOf(s: seq<Transaction>, t: Transaction): (i: int)
    ensures -1 <= i < |s|
    ensures i == -1 <==> t !in s
    ensures 0 <= i ==> s[i] == t && forall k :: 0 <= k < i ==> s[k] != t
  {
    if s == [] then -1
    else if s[0] == t then 0
    else
      var j := IndexOf(s[1..], t);
      if j < 0 then -1 else j + 1
  }

  /** List.remove(Object) with identity equality: drops the first occurrence of
      t and leaves a list without t as it is. */
  function RemoveFirst(s: seq<Transaction>, t: Transaction): (r: seq<Transaction>)
    ensures t !in s ==> r == s
    ensures multiset(r) == multiset(s) - multiset{t}
  {
    if s == [] then []
    else
      assert s == [s[0]] + s[1..];
      if s[0] == t then s[1..] else [s[0]] + RemoveFirst(s[1..], t)
  }

  /** The entry removed is the one at the first row holding t. */
  lemma {:induction false} RemoveFirstAt(s: seq<Transaction>, t: Transaction)
    requires t in s
    ensures RemoveFirst(s, t) == s[..IndexOf(s, t)] + s[IndexOf(s, t) + 1..]
  {
    if s[0] == t {
      assert s[..0] + s[1..] == s[1..];
    } else {
      var tail := s[1..];
      assert t in tail by {
        var k :| 0 <= k < |s| && s[k] == t;
        assert tail[k - 1] == t;
      }
      RemoveFirstAt(tail, t);
      var j := IndexOf(tail, t);
      assert IndexOf(s, t) == j + 1;
      DropOneAfterHead(s, j);
    }
  }

  /** Cutting row j out of the tail is cutting row j + 1 out of the list. */
  lemma DropOneAfterHead(s: seq<Transaction>, j: nat)
    requires j + 1 < |s|
    ensures s[..j + 1] + s[j + 2..] == [s[0]] + (s[1..][..j] + s[1..][j + 1..])
  {
    assert s[..j + 1] == [s[0]] + s[1..][..j] && s[j + 2..] == s[1..][j + 1..];
  }

  /** The inverse undo applies to the list before it re-sorts:
      Add removes that same entry; Delete puts the entry back at the stored row,
      or at the end when the row is past the end or negative; Update puts the
      old entry back at the stored row when that row exists, and otherwise does
      nothing. */
  function Revert(s: seq<Transaction>, a: UndoAction): (r: seq<Transaction>)
    ensures a.actionType == Add ==> multiset(r) == multiset(s) - multiset{a.transaction}
    ensures a.actionType == Delete ==>
      |r| == |s| + 1 && multiset(r) == multiset(s) + multiset{a.transaction} &&
      r[if 0 <= a.index <= |s| then a.index else |s|] == a.transaction
    ensures a.actionType == Delete ==>
      var p := if 0 <= a.index <= |s| then a.index else |s|;
      |r| == |s| + 1 && r[..p] == s[..p] && r[p + 1..] == s[p..]
    ensures a.actionType == Update ==> |r| == |s|
    ensures a.actionType == Update && 0 <= a.index < |s| ==>
      r[a.index] == a.transaction && forall k :: 0 <= k < |s| && k != a.index ==> r[k] == s[k]
    ensures a.actionType == Update && !(0 <= a.index < |s|) ==> r == s
  {
    match a.actionType
    case Add => RemoveFirst(s, a.transaction)
    case Delete =>
      if 0 <= a.index <= |s| then
        assert s == s[..a.index] + s[a.index..];
        s[..a.index] + [a.transaction] + s[a.index..]
      else s + [a.transaction]
    case Update =>
      if 0 <= a.index < |s| then s[a.index := a.transaction] else s
  }

  /* ---------- round trips ---------- */

  /** Removing by identity an entry that was just inserted gives back the list. */
  lemma {:induction false} RemoveInserted(s: seq<Transaction>, t: Transaction)
    requires t !in s
    ensures RemoveFirst(Insert(s, t), t) == s
  {
    if s == [] {
      assert Insert(s, t) == [t];
    } else if NotAfter(s[0], t) {
      assert t !in s[1..];
      RemoveInserted(s[1..], t);
      var r := Insert(s[1..], t);
      assert ([s[0]] + r)[0] == s[0] && ([s[0]] + r)[1..] == r;
      assert s == [s[0]] + s[1..];
    } else {
      assert ([t] + s)[1..] == s;
    }
  }

  /** Add, then undo: the new entry (an object not yet in the list) is appended
      and the list re-sorted; undo removes that object and re-sorts. The list
      comes back sorted, and exactly as it was when it was sorted before. */
  lemma AddThenUndoRestores(s: seq<Transaction>, t: Transaction)
    requires t !in s
    ensures SortByDate(Revert(SortByDate(s + [t]), UndoAction(Add, t, |s|))) == SortByDate(s)
    ensures SortedByDate(s) ==> SortByDate(Revert(SortByDate(s + [t]), UndoAction(Add, t, |s|))) == s
  {
    var sorted := SortByDate(s);
    assert (s + [t])[..|s|] == s;
    assert SortByDate(s + [t]) == Insert(sorted, t);
    SortByDateIsStableSort(s);
    assert t !in multiset(sorted);
    RemoveInserted(sorted, t);
    SortedUnchanged(sorted);
    if SortedByDate(s) {
      SortedUnchanged(s);
    }
  }

  /** Delete row i, then undo: the entry goes back at row i, and after the
      re-sort the list is the sorted original, which is the original itself
      when it was sorted. */
  lemma DeleteThenUndoRestores(s: seq<Transaction>, i: nat)
    requires i < |s|
    ensures SortByDate(Revert(s[..i] + s[i + 1..], UndoAction(Delete, s[i], i))) == SortByDate(s)
    ensures SortedByDate(s) ==> SortByDate(Revert(s[..i] + s[i + 1..], UndoAction(Delete, s[i], i))) == s
  {
    var rest := s[..i] + s[i + 1..];
    assert rest[..i] == s[..i] && rest[i..] == s[i + 1..];
    assert rest[..i] + [s[i]] + rest[i..] == s;
    if SortedByDate(s) {
      SortedUnchanged(s);
    }
  }

  lemma MultisetUpdate(s: seq<Transaction>, i: nat, v: Transaction)
    requires i < |s|
    ensures multiset(s[i := v]) + multiset{s[i]} == multiset(s) + multiset{v}
  {
    assert s == s[..i] + [s[i]] + s[i + 1..];
    assert s[i := v] == s[..i] + [v] + s[i + 1..];
  }

  /** Two bags that become equal once a is added to one and b to the other are
      equal exactly when a and b are the same. */
  lemma MultisetCancel(m: multiset<Transaction>, n: multiset<Transaction>, a: Transaction, b: Transaction)
    requires m + multiset{a} == n + multiset{b}
    ensures m == n <==> a == b
  {
    if m == n {
      assert (n + multiset{a})[a] == (n + multiset{b})[a];
    }
    if a == b {
      assert m == (m + multiset{a}) - multiset{a};
      assert n == (n + multiset{a}) - multiset{a};
    }
  }

  /** Update row i to y, then undo. Undo writes the old entry back at row i of
      the re-sorted list, whatever entry the sort has moved there. The result
      holds the original entries, with y in place of the entry found at row i.
      So the original contents come back exactly when the sort left y at row i;
      otherwise y stays and an unrelated entry is lost. */
  lemma UndoUpdateContents(s: seq<Transaction>, i: nat, y: Transaction)
    requires i < |s|
    ensures var q := SortByDate(s[i := y]);
      multiset(SortByDate(Revert(q, UndoAction(Update, s[i], i)))) + multiset{q[i]} == multiset(s) + multiset{y}
    ensures var q := SortByDate(s[i := y]);
      multiset(SortByDate(Revert(q, UndoAction(Update, s[i], i)))) == multiset(s) <==> q[i] == y
  {
    var q := SortByDate(s[i := y]);
    var reverted := Revert(q, UndoAction(Update, s[i], i));
    assert reverted == q[i := s[i]];
    SortByDateIsStableSort(s[i := y]);
    SortByDateIsStableSort(reverted);
    MultisetUpdate(s, i, y);
    MultisetUpdate(q, i, s[i]);
    var m, n := multiset(SortByDate(reverted)), multiset(s);
    assert m + multiset{q[i]} == n + multiset{y};
    MultisetCancel(m, n, q[i], y);
  }

  /** The first row holding y in a + [y] + b is the row after a, when a lacks y. */
  lemma IndexOfAfter(a: seq<Transaction>, b: seq<Transaction>, y: Transaction)
    requires y !in a
    ensures IndexOf(a + [y] + b, y) == |a|
  {
    var w := a + [y] + b;
    assert w[|a|] == y;
    assert forall k :: 0 <= k < |a| ==> w[k] == a[k];
  }

  /** Splitting two sequences at the first occurrence of y splits them alike. */
  lemma CancelAround(a: seq<Transaction>, b: seq<Transaction>, c: seq<Transaction>, e: seq<Transaction>, y: Transaction)
    requires a + [y] + b == c + [y] + e
    requires y !in a && y !in c
    ensures a == c && b == e
  {
    IndexOfAfter(a, b, y);
    IndexOfAfter(c, e, y);
    assert a == (a + [y] + b)[..|a|] && c == (c + [y] + e)[..|c|];
    assert b == (a + [y] + b)[|a| + 1..] && e == (c + [y] + e)[|c| + 1..];
  }

  /** An entry missing from a list is missing from each of its date subsequences. */
  lemma {:induction false} NotInOfDate(s: seq<Transaction>, d: string, x: Transaction)
    requires x !in s
    ensures x !in OfDate(s, d)
  {
    if s != [] {
      assert x != s[0] && x !in s[1..];
      NotInOfDate(s[1..], d, x);
    }
  }

  /** The subsequence for d of a list with y in the middle. */
  lemma OfDateAroundEntry(a: seq<Transaction>, y: Transaction, b: seq<Transaction>, d: string)
    ensures OfDate(a + [y] + b, d) == OfDate(a, d) + (if y.date == d then [y] else []) + OfDate(b, d)
  {
    assert a + [y] + b == a + ([y] + b);
    OfDateAppend(a, [y] + b, d);
    OfDateAppend([y], b, d);
    assert [y][1..] == [];
    assert OfDate([y], d) == (if y.date == d then [y] else []);
  }

  /** Two lists that hold y once each, with equal subsequences for d, keep equal
      subsequences for d once y is taken out. */
  lemma OfDateWithout(a: seq<Transaction>, b: seq<Transaction>, c: seq<Transaction>, e: seq<Transaction>, y: Transaction, d: string)
    requires y !in a && y !in c
    requires OfDate(a + [y] + b, d) == OfDate(c + [y] + e, d)
    ensures OfDate(a + b, d) == OfDate(c + e, d)
  {
    OfDateAroundEntry(a, y, b, d);
    OfDateAroundEntry(c, y, e, d);
    OfDateAppend(a, b, d);
    OfDateAppend(c, e, d);
    if y.date == d {
      NotInOfDate(a, d, y);
      NotInOfDate(c, d, y);
      CancelAround(OfDate(a, d), OfDate(b, d), OfDate(c, d), OfDate(e, d), y);
    } else {
      assert OfDate(a, d) + [] + OfDate(b, d) == OfDate(a, d) + OfDate(b, d);
      assert OfDate(c, d) + [] + OfDate(e, d) == OfDate(c, d) + OfDate(e, d);
    }
  }

  /** A new entry put into one row occurs exactly once. */
  lemma UpdatedOnce(s: seq<Transaction>, i: nat, y: Transaction)
    requires i < |s| && y !in s
    ensures multiset(s[i := y])[y] == 1
  {
    assert s[i := y] == s[..i] + [y] + s[i + 1..];
    assert s == s[..i] + [s[i]] + s[i + 1..];
  }

  /** A new entry the sort leaves at row i occurs in no earlier row. */
  lemma NewEntryOnlyAt(s: seq<Transaction>, i: nat, y: Transaction)
    requires i < |s| && y !in s
    requires SortByDate(s[i := y])[i] == y
    ensures y !in SortByDate(s[i := y])[..i]
  {
    var q := SortByDate(s[i := y]);
    SortByDateIsStableSort(s[i := y]);
    MultisetRemoveAt(q, i);
    UpdatedOnce(s, i, y);
    assert y !in q[..i] + q[i + 1..];
  }

  /** Taking the new entry out of the sorted list leaves the other rows of s, in
      their order: both are date-ordered with the same date subsequences. */
  lemma SortedRestAgrees(s: seq<Transaction>, i: nat, y: Transaction)
    requires SortedByDate(s) && i < |s| && y !in s
    requires SortByDate(s[i := y])[i] == y
    ensures var q := SortByDate(s[i := y]); q[..i] + q[i + 1..] == s[..i] + s[i + 1..]
  {
    var u := s[i := y];
    var q := SortByDate(u);
    NewEntryOnlyAt(s, i, y);
    SortByDateIsStableSort(u);
    SortedRemoveAt(s, i);
    SortedRemoveAt(q, i);
    assert q == q[..i] + [y] + q[i + 1..];
    assert u == s[..i] + [y] + s[i + 1..];
    assert y !in s[..i];
    var rq, rs := q[..i] + q[i + 1..], s[..i] + s[i + 1..];
    forall d ensures OfDate(rq, d) == OfDate(rs, d) {
      OfDateWithout(q[..i], q[i + 1..], s[..i], s[i + 1..], y, d);
    }
    StableSortIsUnique(rq, rs);
  }

  /** A sorted list with one row replaced by a new entry that the sort leaves at
      that row is sorted already: the sort moves nothing. */
  lemma SortKeepsUpdatedRow(s: seq<Transaction>, i: nat, y: Transaction)
    requires SortedByDate(s) && i < |s| && y !in s
    requires SortByDate(s[i := y])[i] == y
    ensures SortByDate(s[i := y]) == s[i := y]
  {
    var q := SortByDate(s[i := y]);
    var rest := s[..i] + s[i + 1..];
    SortedRestAgrees(s, i, y);
    assert q[..i] == rest[..i] && q[i + 1..] == rest[i..];
    assert q == rest[..i] + [y] + rest[i..];
    assert s[i := y] == rest[..i] + [y] + rest[i..];
  }

  /** Update row i of a sorted list to a new entry y, then undo. When the sort
      leaves y at row i, undo gives back the very same list, order included. */
  lemma UpdateThenUndoRestores(s: seq<Transaction>, i: nat, y: Transaction)
    requires SortedByDate(s) && i < |s| && y !in s
    requires SortByDate(s[i := y])[i] == y
    ensures SortByDate(Revert(SortByDate(s[i := y]), UndoAction(Update, s[i], i))) == s
  {
    SortKeepsUpdatedRow(s, i, y);
    assert s[i := y][i := s[i]] == s;
    SortedUnchanged(s);
  }

  /** The stale row made concrete: entries a (January) and c (February); the
      first row is updated to b (March). The re-sort moves b to the second row,
      so undo writes a over c: c is gone and b is still there. */
  lemma StaleUpdateUndo(a: Transaction, c: Transaction, b: Transaction)
    requires a.date == "2024-01-01" && c.date == "2024-02-01" && b.date == "2024-03-01"
    ensures SortByDate([a, c][0 := b]) == [c, b]
    ensures SortByDate(Revert([c, b], UndoAction(Update, a, 0))) == [a, b]
  {
    assert [a, c][0 := b] == [b, c];
    assert [b, c][..1] == [b];
    assert [b][..0] == [];
    assert b.date == "2024-0" + "3-01" && c.date == "2024-0" + "2-01";
    DateText.CompareToConcat("2024-0", "3-01", "2024-0", "2-01");
    assert !NotAfter(b, c);
    assert a.date == "2024-0" + "1-01";
    DateText.CompareToConcat("2024-0", "1-01", "2024-0", "3-01");
    assert NotAfter(a, b);
    assert [a, b][..1] == [a];
    assert [a][..0] == [];
  }
}
