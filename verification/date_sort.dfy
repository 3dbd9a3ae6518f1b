/** sortTransactionsByDate: the ledger is kept in date order by List.sort with the
    comparator t1.getDate().compareTo(t2.getDate()). List.sort is stable, and a
    stable sort has exactly one possible result (StableSortIsUnique), so the
    insertion sort below, which is stable, gives what the source's sort gives. */
module DateSort {
  import opened DateText
  import opened Transactions

  /** The comparator's verdict "t1 may stay before t2". */
  predicate NotAfter(t1: Transaction, t2: Transaction) {
    CompareTo(t1.date, t2.date) <= 0
  }

  predicate SortedByDate(s: seq<Transaction>) {
    forall i, j :: 0 <= i < j < |s| ==> NotAfter(s[i], s[j])
  }

  /** The entries of s dated d, in the order they have in s. A sort is stable
      exactly when it leaves every one of these subsequences as it was. */
  function OfDate(s: seq<Transaction>, d: string): seq<Transaction> {
    if s == [] then [] else (if s[0].date == d then [s[0]] else []) + OfDate(s[1..], d)
  }

  /** Puts x after every leading entry not dated after it; into a sorted list,
      that is after all entries dated on or before x. */
  function Insert(s: seq<Transaction>, x: Transaction): (r: seq<Transaction>)
    ensures |r| == |s| + 1
  {
    if s == [] then [x]
    else if NotAfter(s[0], x) then [s[0]] + Insert(s[1..], x)
    else [x] + s
  }

  /** The ledger's sort: each entry in turn, from the first to the last, is
      inserted after the entries already placed that are not dated after it. */
  function SortByDate(s: seq<Transaction>): (r: seq<Transaction>)
    ensures |r| == |s|
  {
    if s == [] then [] else Insert(SortByDate(s[..|s| - 1]), s[|s| - 1])
  }

  /* ---------- the date subsequences ---------- */

  lemma {:induction false} OfDateAppend(a: seq<Transaction>, b: seq<Transaction>, d: string)
    ensures OfDate(a + b, d) == OfDate(a, d) + OfDate(b, d)
  {
    if a != [] {
      assert (a + b)[0] == a[0] && (a + b)[1..] == a[1..] + b;
      OfDateAppend(a[1..], b, d);
    } else {
      assert a + b == b;
    }
  }

  /** An entry of the subsequence for d is an entry of s dated d. */
  lemma {:induction false} OfDateSubset(s: seq<Transaction>, d: string, x: Transaction)
    requires x in OfDate(s, d)
    ensures x in s && x.date == d
  {
    if s != [] && !(x == s[0] && s[0].date == d) {
      OfDateSubset(s[1..], d, x);
    }
  }

  lemma OfDateOfFirst(s: seq<Transaction>)
    requires s != []
    ensures OfDate(s, s[0].date) == [s[0]] + OfDate(s[1..], s[0].date)
  {
  }

  lemma {:induction false} OfDateNone(s: seq<Transaction>, d: string)
    requires forall i :: 0 <= i < |s| ==> s[i].date != d
    ensures OfDate(s, d) == []
  {
    if s != [] {
      OfDateNone(s[1..], d);
    }
  }

  /* ---------- insertion ---------- */

  lemma {:induction false} InsertPermutes(s: seq<Transaction>, x: Transaction)
    ensures multiset(Insert(s, x)) == multiset(s) + multiset{x}
  {
    if s != [] {
      assert s == [s[0]] + s[1..];
      if NotAfter(s[0], x) {
        InsertPermutes(s[1..], x);
      }
    }
  }

  lemma {:induction false} InsertSorted(s: seq<Transaction>, x: Transaction)
    requires SortedByDate(s)
    ensures SortedByDate(Insert(s, x))
  {
    if s == [] {
    } else if NotAfter(s[0], x) {
      var r := Insert(s[1..], x);
      InsertSorted(s[1..], x);
      InsertPermutes(s[1..], x);
      forall j | 0 <= j < |r| ensures NotAfter(s[0], r[j]) {
        assert r[j] in multiset(r);
        if r[j] != x {
          assert r[j] in multiset(s[1..]);
          var k :| 0 <= k < |s[1..]| && s[1..][k] == r[j];
          assert s[k + 1] == r[j];
        }
      }
      assert Insert(s, x) == [s[0]] + r;
    } else {
      CompareToAntisymmetric(s[0].date, x.date);
      forall j | 0 <= j < |s| ensures NotAfter(x, s[j]) {
        if j > 0 {
          CompareToTransitive(x.date, s[0].date, s[j].date);
        }
      }
    }
  }

  /** Into a sorted list, x goes after every entry dated like it: it keeps its
      place as the last of its date. */
  lemma {:induction false} InsertStable(s: seq<Transaction>, x: Transaction, d: string)
    requires SortedByDate(s)
    ensures OfDate(Insert(s, x), d) == OfDate(s, d) + (if x.date == d then [x] else [])
  {
    if s == [] {
      assert OfDate([x], d) == (if x.date == d then [x] else []) + OfDate([], d);
    } else if NotAfter(s[0], x) {
      assert SortedByDate(s[1..]);
      InsertStable(s[1..], x, d);
      var r := Insert(s[1..], x);
      assert ([s[0]] + r)[0] == s[0] && ([s[0]] + r)[1..] == r;
      assert OfDate([s[0]] + r, d) == (if s[0].date == d then [s[0]] else []) + OfDate(r, d);
    } else {
      NoneDatedLikeFirst(s, x);
      assert ([x] + s)[0] == x && ([x] + s)[1..] == s;
      if x.date == d {
        OfDateNone(s, d);
      }
    }
  }

  /** When x is dated strictly before the first entry of a sorted list, no entry
      of the list shares its date. */
  lemma NoneDatedLikeFirst(s: seq<Transaction>, x: Transaction)
    requires SortedByDate(s) && s != [] && !NotAfter(s[0], x)
    ensures forall i :: 0 <= i < |s| ==> s[i].date != x.date
  {
    forall i | 0 <= i < |s| ensures s[i].date != x.date {
      if i > 0 {
        assert NotAfter(s[0], s[i]);
      }
    }
  }

  /** Appending after entries none of which is dated after x. */
  lemma {:induction false} InsertAtEnd(s: seq<Transaction>, x: Transaction)
    requires forall i :: 0 <= i < |s| ==> NotAfter(s[i], x)
    ensures Insert(s, x) == s + [x]
  {
    if s != [] {
      InsertAtEnd(s[1..], x);
      assert s == [s[0]] + s[1..];
    }
  }

  /* ---------- the sort ---------- */

  /** The sort returns a permutation of its input, in date order, in which
      entries with equal dates keep their relative order. */
  lemma {:induction false} SortByDateIsStableSort(s: seq<Transaction>)
    ensures multiset(SortByDate(s)) == multiset(s)
    ensures SortedByDate(SortByDate(s))
    ensures forall d :: OfDate(SortByDate(s), d) == OfDate(s, d)
  {
    if s != [] {
      var n := |s| - 1;
      var prefix := SortByDate(s[..n]);
      assert s == s[..n] + [s[n]];
      SortByDateIsStableSort(s[..n]);
      InsertPermutes(prefix, s[n]);
      InsertSorted(prefix, s[n]);
      forall d ensures OfDate(SortByDate(s), d) == OfDate(s, d) {
        InsertStable(prefix, s[n], d);
        OfDateAppend(s[..n], [s[n]], d);
        assert OfDate([s[n]], d) == (if s[n].date == d then [s[n]] else []) + OfDate([], d);
      }
    }
  }

  /** A sorted list is left exactly as it is. */
  lemma {:induction false} SortedUnchanged(s: seq<Transaction>)
    requires SortedByDate(s)
    ensures SortByDate(s) == s
  {
    if s != [] {
      var n := |s| - 1;
      SortedUnchanged(s[..n]);
      InsertAtEnd(s[..n], s[n]);
      assert s[..n] + [s[n]] == s;
    }
  }

  /** Two date-ordered lists whose subsequences for the dates of their first
      entries agree start with the same entry: each one's first entry is dated
      no later than the other's, so both are dated alike and head that date's
      subsequence. */
  lemma SameFirstEntry(a: seq<Transaction>, b: seq<Transaction>)
    requires SortedByDate(a) && SortedByDate(b) && a != [] && b != []
    requires OfDate(a, a[0].date) == OfDate(b, a[0].date)
    requires OfDate(a, b[0].date) == OfDate(b, b[0].date)
    ensures a[0] == b[0]
  {
    var d, e := a[0].date, b[0].date;
    OfDateOfFirst(a);
    OfDateSubset(b, d, a[0]);
    var k :| 0 <= k < |b| && b[k] == a[0];
    assert k == 0 || NotAfter(b[0], b[k]);
    OfDateOfFirst(b);
    OfDateSubset(a, e, b[0]);
    var m :| 0 <= m < |a| && a[m] == b[0];
    assert m == 0 || NotAfter(a[0], a[m]);
    CompareToAntisymmetric(d, e);
    assert d == e;
    assert OfDate(a, d)[0] == a[0] && OfDate(b, e)[0] == b[0];
  }

  /** Dropping a common first entry keeps every date's subsequence equal. */
  lemma SameTailSubsequences(a: seq<Transaction>, b: seq<Transaction>)
    requires a != [] && b != [] && a[0] == b[0]
    requires forall d :: OfDate(a, d) == OfDate(b, d)
    ensures forall d :: OfDate(a[1..], d) == OfDate(b[1..], d)
  {
    forall d ensures OfDate(a[1..], d) == OfDate(b[1..], d) {
      var p := if a[0].date == d then [a[0]] else [];
      assert OfDate(a, d) == p + OfDate(a[1..], d);
      assert OfDate(b, d) == p + OfDate(b[1..], d);
      assert (p + OfDate(a[1..], d))[|p|..] == OfDate(a[1..], d);
      assert (p + OfDate(b[1..], d))[|p|..] == OfDate(b[1..], d);
    }
  }

  /** Two date-ordered lists with the same subsequence for every date are equal:
      a stable sort has only one possible result. */
  lemma {:induction false} StableSortIsUnique(a: seq<Transaction>, b: seq<Transaction>)
    requires SortedByDate(a) && SortedByDate(b)
    requires forall d :: OfDate(a, d) == OfDate(b, d)
    ensures a == b
    decreases |a|
  {
    if a == [] || b == [] {
      if a != [] {
        OfDateOfFirst(a);
        assert false;
      } else if b != [] {
        OfDateOfFirst(b);
        assert false;
      }
    } else {
      SameFirstEntry(a, b);
      SameTailSubsequences(a, b);
      StableSortIsUnique(a[1..], b[1..]);
      assert a == [a[0]] + a[1..] && b == [b[0]] + b[1..];
    }
  }

  /** Any stable sort by date of s, the source's List.sort among them, returns
      SortByDate(s). */
  lemma AnyStableSortAgrees(s: seq<Transaction>, r: seq<Transaction>)
    requires SortedByDate(r)
    requires forall d :: OfDate(r, d) == OfDate(s, d)
    ensures r == SortByDate(s)
  {
    SortByDateIsStableSort(s);
    StableSortIsUnique(r, SortByDate(s));
  }

  /** Removing an entry keeps the rest in date order: delete needs no re-sort. */
  lemma SortedRemoveAt(s: seq<Transaction>, k: nat)
    requires SortedByDate(s) && k < |s|
    ensures SortedByDate(s[..k] + s[k + 1..])
  {
    var r := s[..k] + s[k + 1..];
    forall i, j | 0 <= i < j < |r| ensures NotAfter(r[i], r[j]) {
      var i', j' := if i < k then i else i + 1, if j < k then j else j + 1;
      assert r[i] == s[i'] && r[j] == s[j'];
    }
  }
}
