/** Operations on text values that the application relies on: the ordering SQL uses for TEXT
    columns (visit dates are stored as TEXT), lower-casing of e-mail addresses, and the substring
    test `p in s` of Python strings. */
module Text {

  /** `a <= b` on TEXT values: lexicographic order on code points, a proper prefix sorting first
      (the BINARY collation of SQLite, and the order of Python string comparison). */
  predicate TextLe(a: string, b: string)
    decreases |a|
  {
    a == [] || (b != [] && if a[0] == b[0] then TextLe(a[1..], b[1..]) else a[0] < b[0])
  }

  /** Every text is at most itself, so a range whose two ends are the same date keeps that date. */
  lemma {:induction false} TextLeReflexive(a: string)
    ensures TextLe(a, a)
    decreases |a|
  {
    if a != [] {
      TextLeReflexive(a[1..]);
    }
  }

  lemma {:induction false} TextLeTotal(a: string, b: string)
    ensures TextLe(a, b) || TextLe(b, a)
    decreases |a|
  {
    if a != [] && b != [] && a[0] == b[0] {
      TextLeTotal(a[1..], b[1..]);
    }
  }

  lemma {:induction false} TextLeAntisymmetric(a: string, b: string)
    requires TextLe(a, b) && TextLe(b, a)
    ensures a == b
    decreases |a|
  {
    if a != [] {
      assert b != [] && a[0] == b[0];
      TextLeAntisymmetric(a[1..], b[1..]);
      assert a == [a[0]] + a[1..] && b == [b[0]] + b[1..];
    }
  }

  lemma {:induction false} TextLeTransitive(a: string, b: string, c: string)
    requires TextLe(a, b) && TextLe(b, c)
    ensures TextLe(a, c)
    decreases |a|
  {
    if a != [] && a[0] == b[0] && b[0] == c[0] {
      TextLeTransitive(a[1..], b[1..], c[1..]);
    }
  }

  /** Lower-casing of one character: the ASCII letters A-Z become a-z, every other character is kept. */
  function LowerChar(c: char): char
  {
    if IsUpper(c) then (c as int - 'A' as int + 'a' as int) as char else c
  }

  predicate IsUpper(c: char)
  {
    'A' <= c <= 'Z'
  }

  /** Lower-casing of a string (Python's `str.lower()` restricted to ASCII letters). */
  function Lower(s: string): (r: string)
    ensures |r| == |s|
    ensures forall i :: 0 <= i < |r| ==> !IsUpper(r[i])
    ensures forall i :: 0 <= i < |s| && !IsUpper(s[i]) ==> r[i] == s[i]
    ensures forall i :: 0 <= i < |s| && IsUpper(s[i]) ==> r[i] as int == s[i] as int + 32
  {
    if s == [] then [] else [LowerChar(s[0])] + Lower(s[1..])
  }

  /** Lower-casing twice is lower-casing once: an address read back from the session and lowered
      again names the same volunteer. */
  lemma {:induction false} LowerIdempotent(s: string)
    ensures Lower(Lower(s)) == Lower(s)
  {
    LowerKeepsLowercase(Lower(s));
  }

  lemma {:induction false} LowerKeepsLowercase(s: string)
    requires forall i :: 0 <= i < |s| ==> !IsUpper(s[i])
    ensures Lower(s) == s
  {
    if s != [] {
      LowerKeepsLowercase(s[1..]);
    }
  }

  /** `p` occurs in `s` starting at index `i`. */
  predicate OccursAt(s: string, p: string, i: int)
  {
    0 <= i && i + |p| <= |s| && s[i..i + |p|] == p
  }

  /** Python's substring test `p in s`. */
  predicate Contains(s: string, p: string)
  {
    exists i | 0 <= i <= |s| - |p| :: OccursAt(s, p, i)
  }

  lemma ContainsExtend(s: string, t: string, p: string)
    requires Contains(s, p)
    ensures Contains(s + t, p)
  {
    var i :| 0 <= i <= |s| - |p| && OccursAt(s, p, i);
    assert (s + t)[i..i + |p|] == s[i..i + |p|];
    assert OccursAt(s + t, p, i);
  }

  lemma ContainsInfix(s: string, p: string, t: string)
    ensures Contains(s + p + t, p)
  {
    assert OccursAt(s + p + t, p, |s|);
  }

  /** A text without the first character of `p` cannot contain `p`. */
  lemma MissingHeadNotContained(s: string, p: string)
    requires |p| > 0 && p[0] !in s
    ensures !Contains(s, p)
  {
    forall i | 0 <= i <= |s| - |p|
      ensures !OccursAt(s, p, i)
    {
      assert s[i] in s && s[i..i + |p|][0] == s[i];
    }
  }

  /** Two distinct occurrences of `p` put its first character in the text twice. */
  lemma TwoOccurrencesTwoHeads(s: string, p: string, i: int, j: int)
    requires |p| > 0 && i < j
    requires OccursAt(s, p, i) && OccursAt(s, p, j)
    ensures multiset(s)[p[0]] >= 2
  {
    assert s[i..i + |p|][0] == s[i] && s[j..j + |p|][0] == s[j];
    assert s == s[..j] + s[j..];
    assert s[i] in s[..j] && s[j] in s[j..];
    assert multiset(s) == multiset(s[..j]) + multiset(s[j..]);
  }

  /** A text in which the first character of `p` occurs once holds `p` at most once. */
  lemma SingleHeadSingleOccurrence(s: string, p: string)
    requires |p| > 0 && multiset(s)[p[0]] == 1
    ensures forall i, j :: OccursAt(s, p, i) && OccursAt(s, p, j) ==> i == j
  {
    forall i, j | OccursAt(s, p, i) && OccursAt(s, p, j)
      ensures i == j
    {
      if i < j {
        TwoOccurrencesTwoHeads(s, p, i, j);
      } else if j < i {
        TwoOccurrencesTwoHeads(s, p, j, i);
      }
    }
  }
}
