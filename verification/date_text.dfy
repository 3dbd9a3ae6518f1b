/** The text handling the ledger relies on: Java's String.trim, the whole-string
    match of the date pattern \d{4}-\d{2}-\d{2}, and String.compareTo, the order
    the ledger is sorted by. */
module DateText {

  /* ---------- String.compareTo ---------- */

  /** Java's String.compareTo: the difference of the first pair of characters that
      differ, or, when one string is a prefix of the other, the difference of the
      lengths. Only its sign is used by the ledger. */
  function CompareTo(a: string, b: string): (r: int)
    ensures r == 0 <==> a == b
  {
    if a == [] || b == [] then |a| - |b|
    else if a[0] != b[0] then a[0] as int - b[0] as int
    else CompareTo(a[1..], b[1..])
  }

  /** Swapping the arguments negates the comparison. */
  lemma {:induction false} CompareToAntisymmetric(a: string, b: string)
    ensures CompareTo(b, a) == -CompareTo(a, b)
  {
    if a != [] && b != [] && a[0] == b[0] {
      CompareToAntisymmetric(a[1..], b[1..]);
    }
  }

  /** "Not after" is transitive, so a sequence ordered pairwise is ordered throughout. */
  lemma {:induction false} CompareToTransitive(a: string, b: string, c: string)
    requires CompareTo(a, b) <= 0 && CompareTo(b, c) <= 0
    ensures CompareTo(a, c) <= 0
  {
    if a != [] && b != [] && c != [] && a[0] == b[0] && b[0] == c[0] {
      CompareToTransitive(a[1..], b[1..], c[1..]);
    }
  }

  /** Comparing two strings whose first parts have the same length: the first parts
      decide unless they are equal, in which case the rest decides. */
  lemma {:induction false} CompareToConcat(p1: string, q1: string, p2: string, q2: string)
    requires |p1| == |p2|
    ensures CompareTo(p1 + q1, p2 + q2) == if p1 == p2 then CompareTo(q1, q2) else CompareTo(p1, p2)
  {
    if p1 == [] {
      assert p1 + q1 == q1 && p2 + q2 == q2;
    } else {
      assert (p1 + q1)[0] == p1[0] && (p2 + q2)[0] == p2[0];
      assert (p1 + q1)[1..] == p1[1..] + q1 && (p2 + q2)[1..] == p2[1..] + q2;
      if p1[0] == p2[0] {
        CompareToConcat(p1[1..], q1, p2[1..], q2);
        assert p1 == [p1[0]] + p1[1..] && p2 == [p2[0]] + p2[1..];
      }
    }
  }

  /* ---------- String.trim ---------- */

  /** String.trim removes every leading and trailing character at or below U+0020. */
  predicate IsTrimmed(c: char) {
    c <= ' '
  }

  /** The number of characters trim removes from the front. */
  function LeadingBlanks(s: string): (k: nat)
    ensures k <= |s|
    ensures forall i :: 0 <= i < k ==> IsTrimmed(s[i])
    ensures k < |s| ==> !IsTrimmed(s[k])
  {
    if s == [] || !IsTrimmed(s[0]) then 0 else 1 + LeadingBlanks(s[1..])
  }

  /** The number of characters trim removes from the back. */
  function TrailingBlanks(s: string): (k: nat)
    ensures k <= |s|
    ensures forall i :: |s| - k <= i < |s| ==> IsTrimmed(s[i])
    ensures k < |s| ==> !IsTrimmed(s[|s| - 1 - k])
  {
    if s == [] || !IsTrimmed(s[|s| - 1]) then 0 else 1 + TrailingBlanks(s[..|s| - 1])
  }

  /** Java's String.trim. */
  function Trim(s: string): (r: string)
    ensures LeadingBlanks(s) + |r| <= |s|
    ensures r == [] <==> forall i :: 0 <= i < |s| ==> IsTrimmed(s[i])
    ensures r != [] ==> !IsTrimmed(r[0]) && !IsTrimmed(r[|r| - 1])
    ensures forall i :: 0 <= i < |r| ==> r[i] == s[LeadingBlanks(s) + i]
    ensures forall i :: LeadingBlanks(s) + |r| <= i < |s| ==> IsTrimmed(s[i])
  {
    var t := s[LeadingBlanks(s)..];
    t[..|t| - TrailingBlanks(t)]
  }

  /** Text that neither starts nor ends with a blank is left as it is. */
  lemma TrimUnpadded(s: string)
    requires s != [] && !IsTrimmed(s[0]) && !IsTrimmed(s[|s| - 1])
    ensures Trim(s) == s
  {
    assert LeadingBlanks(s) == 0;
    assert s[0..] == s;
    assert TrailingBlanks(s) == 0;
  }

  /** Trimming twice is trimming once. */
  lemma TrimIdempotent(s: string)
    ensures Trim(Trim(s)) == Trim(s)
  {
    var r := Trim(s);
    if r != [] {
      TrimUnpadded(r);
    }
  }

  /* ---------- the date pattern ---------- */

  /** The class \d of a Java regular expression: the ASCII digits only. */
  predicate IsDigit(c: char) {
    '0' <= c <= '9'
  }

  predicate AllDigits(s: string) {
    forall i :: 0 <= i < |s| ==> IsDigit(s[i])
  }

  /** A whole-string match of \d{4}-\d{2}-\d{2}: four digits, a dash, two digits,
      a dash, two digits. Only the shape is checked, never the calendar. */
  predicate MatchesDatePattern(s: string) {
    |s| == 10 && s[4] == '-' && s[7] == '-' &&
    AllDigits(s[..4]) && AllDigits(s[5..7]) && AllDigits(s[8..])
  }

  /** The shape check lets an impossible calendar date through, and rejects a
      date with one-digit fields or another separator. */
  lemma DatePatternIsShapeOnly()
    ensures MatchesDatePattern("2024-13-40")
    ensures MatchesDatePattern("0000-00-00")
    ensures MatchesDatePattern("2024-01-01")
    ensures !MatchesDatePattern("2024-1-01")
    ensures !MatchesDatePattern("2024/01/01")
    ensures !MatchesDatePattern(" 2024-01-01")
  {
    assert "2024-13-40"[..4] == "2024" && "2024-13-40"[5..7] == "13" && "2024-13-40"[8..] == "40";
    assert "0000-00-00"[..4] == "0000" && "0000-00-00"[5..7] == "00" && "0000-00-00"[8..] == "00";
    assert "2024-01-01"[..4] == "2024" && "2024-01-01"[5..7] == "01" && "2024-01-01"[8..] == "01";
  }

  /* ---------- why comparing date text orders by calendar ---------- */

  /** The value of a string of decimal digits. */
  function Number(s: string): nat
    requires AllDigits(s)
  {
    if s == [] then 0 else Number(s[..|s| - 1]) * 10 + (s[|s| - 1] as int - '0' as int)
  }

  /** For digit strings of one width, comparing the text compares the values. */
  lemma {:induction false} NumberOrder(a: string, b: string)
    requires |a| == |b| && AllDigits(a) && AllDigits(b)
    ensures CompareTo(a, b) < 0 <==> Number(a) < Number(b)
    decreases |a|
  {
    if a != [] {
      var n := |a| - 1;
      var a', b' := a[..n], b[..n];
      assert AllDigits(a') && AllDigits(b');
      assert a == a' + [a[n]] && b == b' + [b[n]];
      CompareToConcat(a', [a[n]], b', [b[n]]);
      NumberOrder(a', b');
      NumberOrder(b', a');
      CompareToAntisymmetric(a', b');
      assert [a[n]][1..] == [] && [b[n]][1..] == [];
    }
  }

  /** For digit strings of one width, equal values mean equal text. */
  lemma NumberInjective(a: string, b: string)
    requires |a| == |b| && AllDigits(a) && AllDigits(b)
    ensures Number(a) == Number(b) <==> a == b
  {
    NumberOrder(a, b);
    NumberOrder(b, a);
    CompareToAntisymmetric(a, b);
  }

  function Year(s: string): nat
    requires MatchesDatePattern(s)
  {
    Number(s[..4])
  }

  function Month(s: string): nat
    requires MatchesDatePattern(s)
  {
    Number(s[5..7])
  }

  function Day(s: string): nat
    requires MatchesDatePattern(s)
  {
    Number(s[8..])
  }

  /** Comparing two texts that start with digit fields of one width: the field
      values decide unless they are equal, in which case the rest decides. */
  lemma FieldCompare(p1: string, q1: string, p2: string, q2: string)
    requires |p1| == |p2| && AllDigits(p1) && AllDigits(p2)
    ensures CompareTo(p1 + q1, p2 + q2) <= 0 <==>
      Number(p1) < Number(p2) || (Number(p1) == Number(p2) && CompareTo(q1, q2) <= 0)
  {
    CompareToConcat(p1, q1, p2, q2);
    NumberOrder(p1, p2);
    NumberOrder(p2, p1);
    NumberInjective(p1, p2);
    CompareToAntisymmetric(p1, p2);
  }

  /** From position i on, a digit field that ends at j decides the comparison
      unless the two fields have the same value, in which case what follows j
      decides. */
  lemma FieldThenRest(a: string, b: string, i: nat, j: nat)
    requires i <= j <= |a| == |b| && AllDigits(a[i..j]) && AllDigits(b[i..j])
    ensures CompareTo(a[i..], b[i..]) <= 0 <==>
      Number(a[i..j]) < Number(b[i..j]) || (Number(a[i..j]) == Number(b[i..j]) && CompareTo(a[j..], b[j..]) <= 0)
  {
    assert a[i..] == a[i..j] + a[j..] && b[i..] == b[i..j] + b[j..];
    FieldCompare(a[i..j], a[j..], b[i..j], b[j..]);
  }

  /** Comparing two dates of the pattern as text orders them by year, then month,
      then day: the fixed width is what makes the string sort chronological. */
  lemma DateOrderIsChronological(a: string, b: string)
    requires MatchesDatePattern(a) && MatchesDatePattern(b)
    ensures CompareTo(a, b) <= 0 <==>
      Year(a) < Year(b) ||
      (Year(a) == Year(b) && (Month(a) < Month(b) || (Month(a) == Month(b) && Day(a) <= Day(b))))
  {
    // year, dash, month, dash, day are compared in turn; the dashes are equal
    assert a[0..] == a && b[0..] == b && a[..4] == a[0..4] && b[..4] == b[0..4];
    FieldThenRest(a, b, 0, 4);
    assert a[4..][1..] == a[5..] && b[4..][1..] == b[5..];
    FieldThenRest(a, b, 5, 7);
    assert a[7..][1..] == a[8..] && b[7..][1..] == b[8..];
    assert a[10..] == [] && b[10..] == [] && a[8..] == a[8..10] && b[8..] == b[8..10];
    FieldThenRest(a, b, 8, 10);
  }
}
