/** The few Python string operations the application relies on:
    `str.strip()`, `str.split(" ")`, `str.join`, `str(n)` for a natural number
    and `int(s)`. */
module Strings {
  import opened Wrappers

  // ---------------------------------------------------------------------------
  // str.strip()
  // ---------------------------------------------------------------------------

  /** The characters for which Python's `str.isspace()` holds; `strip()` with
      no argument removes exactly these. */
  predicate IsSpace(c: char)
  {
    || ('\t' <= c <= '\r')
    || ('\U{1C}' <= c <= ' ')
    || c == '\U{85}' || c == '\U{A0}' || c == '\U{1680}'
    || ('\U{2000}' <= c <= '\U{200A}')
    || c == '\U{2028}' || c == '\U{2029}' || c == '\U{202F}' || c == '\U{205F}'
    || c == '\U{3000}'
  }

  predicate AllSpace(s: string)
  {
    forall k :: 0 <= k < |s| ==> IsSpace(s[k])
  }

  lemma AllSpaceCons(c: char, d: string)
    requires IsSpace(c) && AllSpace(d)
    ensures AllSpace([c] + d)
  {
    forall k | 0 <= k < |[c] + d| ensures IsSpace(([c] + d)[k]) {
      if k > 0 { assert ([c] + d)[k] == d[k - 1]; }
    }
  }

  /** Neither empty nor starting or ending with whitespace, or else empty. */
  predicate Trimmed(s: string)
  {
    s == [] || (!IsSpace(s[0]) && !IsSpace(s[|s| - 1]))
  }

  /** Drops leading whitespace: the result is a suffix of `s`, everything
      dropped is whitespace, and what is left does not start with whitespace. */
  function TrimStart(s: string): (r: string)
    ensures |r| <= |s| && r == s[|s| - |r|..]
    ensures AllSpace(s[..|s| - |r|])
    ensures r == [] || !IsSpace(r[0])
  {
    if s != [] && IsSpace(s[0]) then
      var rest := s[1..];
      var r := TrimStart(rest);
      var dropped := rest[..|rest| - |r|];
      assert s[..|s| - |r|] == [s[0]] + dropped;
      AllSpaceCons(s[0], dropped);
      assert s[|s| - |r|..] == rest[|rest| - |r|..];
      r
    else s
  }

  /** Drops trailing whitespace: the result is a prefix of `s`, everything
      dropped is whitespace, and what is left does not end with whitespace. */
  function TrimEnd(s: string): (r: string)
    ensures |r| <= |s| && r == s[..|r|]
    ensures AllSpace(s[|r|..])
    ensures r == [] || !IsSpace(r[|r| - 1])
  {
    if s != [] && IsSpace(s[|s| - 1]) then
      var p := s[..|s| - 1];
      var r := TrimEnd(p);
      assert s[..|r|] == p[..|r|];
      assert s[|r|..] == p[|r|..] + [s[|s| - 1]];
      r
    else s
  }

  /** Python's `s.strip()`: the result neither starts nor ends with
      whitespace. */
  function Strip(s: string): (r: string)
    ensures Trimmed(r)
  {
    var t := TrimStart(s);
    var r := TrimEnd(t);
    assert r != [] ==> r[0] == t[0];
    r
  }

  /** `Strip` returns a slice of its argument with only whitespace outside it,
      and the slice neither starts nor ends with whitespace. */
  lemma StripIsTrimmedSlice(s: string) returns (i: nat, j: nat)
    ensures i <= j <= |s| && Strip(s) == s[i..j]
    ensures AllSpace(s[..i]) && AllSpace(s[j..])
    ensures Trimmed(Strip(s))
  {
    var t := TrimStart(s);
    var r := TrimEnd(t);
    assert Strip(s) == r;
    i, j := SliceParts(s, t, r);
  }

  /** A whitespace-bounded prefix `r` of a whitespace-bounded suffix `t` of
      `s` is a slice of `s` with only whitespace outside it. */
  lemma SliceParts(s: string, t: string, r: string) returns (i: nat, j: nat)
    requires |t| <= |s| && t == s[|s| - |t|..] && AllSpace(s[..|s| - |t|])
    requires |r| <= |t| && r == t[..|r|] && AllSpace(t[|r|..])
    ensures i <= j <= |s| && r == s[i..j]
    ensures AllSpace(s[..i]) && AllSpace(s[j..])
  {
    i := |s| - |t|;
    j := i + |r|;
    SliceOfSlice(s, i, |r|);
  }

  /** A slice of the second half of a concatenation. */
  lemma SliceOfAppend(a: string, b: string, lo: nat, hi: nat)
    requires lo <= hi <= |b|
    ensures (a + b)[|a| + lo..|a| + hi] == b[lo..hi]
  {
  }

  /** Slicing a suffix again is slicing the original. */
  lemma SliceOfSlice(s: string, i: nat, m: nat)
    requires i + m <= |s|
    ensures s[i..][..m] == s[i..i + m]
    ensures s[i..][m..] == s[i + m..]
  {
  }

  lemma {:induction false} TrimStartSkips(a: string, rest: string)
    requires AllSpace(a)
    requires rest == [] || !IsSpace(rest[0])
    ensures TrimStart(a + rest) == rest
  {
    if a != [] {
      assert (a + rest)[0] == a[0] && IsSpace(a[0]);
      assert (a + rest)[1..] == a[1..] + rest;
      assert AllSpace(a[1..]) by {
        forall k | 0 <= k < |a[1..]| ensures IsSpace(a[1..][k]) { assert a[1..][k] == a[k + 1]; }
      }
      TrimStartSkips(a[1..], rest);
    } else {
      assert a + rest == rest;
    }
  }

  lemma {:induction false} TrimEndSkips(m: string, b: string)
    requires AllSpace(b)
    requires m == [] || !IsSpace(m[|m| - 1])
    ensures TrimEnd(m + b) == m
  {
    if b != [] {
      var b' := b[..|b| - 1];
      assert (m + b)[..|m + b| - 1] == m + b';
      assert AllSpace(b') by {
        forall k | 0 <= k < |b'| ensures IsSpace(b'[k]) { assert b'[k] == b[k]; }
      }
      assert IsSpace((m + b)[|m + b| - 1]) by { assert (m + b)[|m + b| - 1] == b[|b| - 1]; }
      TrimEndSkips(m, b');
    } else {
      assert m + b == m;
    }
  }

  /** The reference characterisation of `strip()`: whatever surrounds a
      trimmed middle part with whitespace only, `Strip` returns that part. */
  lemma StripUnique(a: string, m: string, b: string)
    requires AllSpace(a) && AllSpace(b) && Trimmed(m)
    ensures Strip(a + m + b) == m
  {
    if m == [] {
      assert a + m + b == a + b;
      assert AllSpace(a + b) by {
        forall k | 0 <= k < |a + b| ensures IsSpace((a + b)[k]) {
          if k < |a| { assert (a + b)[k] == a[k]; } else { assert (a + b)[k] == b[k - |a|]; }
        }
      }
      TrimStartSkips(a + b, []);
      assert a + b + [] == a + b;
    } else {
      assert a + m + b == a + (m + b);
      TrimStartSkips(a, m + b);
      TrimEndSkips(m, b);
    }
  }

  /** A whitespace-only (or empty) string strips to the empty string. */
  lemma StripAllSpace(s: string)
    requires AllSpace(s)
    ensures Strip(s) == ""
  {
    StripUnique(s, "", "");
    assert s + "" + "" == s;
  }

  /** A string containing a non-whitespace character does not strip to "". */
  lemma StripKeepsNonSpace(s: string, k: nat)
    requires k < |s| && !IsSpace(s[k])
    ensures Strip(s) != ""
  {
    var i, j := StripIsTrimmedSlice(s);
    assert forall m :: 0 <= m < i ==> s[..i][m] == s[m];
    assert forall m :: j <= m < |s| ==> s[j..][m - j] == s[m];
    assert i <= k < j;
  }

  lemma StripIdempotent(s: string)
    ensures Strip(Strip(s)) == Strip(s)
  {
    var _, _ := StripIsTrimmedSlice(s);
    var t := Strip(s);
    StripUnique("", t, "");
    assert "" + t + "" == t;
  }

  // ---------------------------------------------------------------------------
  // str.split(sep) with a one-character separator, and sep.join(parts)
  // ---------------------------------------------------------------------------

  /** Python's `s.split(sep)` for a one-character `sep`: every occurrence of
      `sep` ends a field, so adjacent separators give empty fields and the
      result is never empty. */
  function Split(s: string, sep: char): (parts: seq<string>)
    ensures |parts| >= 1
    ensures forall k :: 0 <= k < |parts| ==> sep !in parts[k]
  {
    if s == [] then [[]]
    else
      var rest := Split(s[1..], sep);
      if s[0] == sep then [[]] + rest
      else [[s[0]] + rest[0]] + rest[1..]
  }

  /** Python's `sep.join(parts)`: the last part ends the result. */
  function Join(parts: seq<string>, sep: string): (r: string)
    ensures parts == [] ==> r == ""
    ensures parts != [] ==> |parts[0]| <= |r| && r[..|parts[0]|] == parts[0]
  {
    if |parts| == 0 then ""
    else if |parts| == 1 then parts[0]
    else parts[0] + sep + Join(parts[1..], sep)
  }

  /** Splitting a string with a first field free of the separator yields that
      field followed by the split of the remainder. */
  lemma {:induction false} SplitAfter(x: string, sep: char, y: string)
    requires sep !in x
    ensures Split(x + [sep] + y, sep) == [x] + Split(y, sep)
  {
    if x == [] {
      assert x + [sep] + y == [sep] + y;
      assert ([sep] + y)[1..] == y;
    } else {
      assert (x + [sep] + y)[1..] == x[1..] + [sep] + y;
      SplitAfter(x[1..], sep, y);
      assert [x[0]] + x[1..] == x;
    }
  }

  /** Joining the fields of a split with the separator gives the string back. */
  lemma {:induction false} JoinSplit(s: string, sep: char)
    ensures Join(Split(s, sep), [sep]) == s
  {
    if s != [] {
      var rest := Split(s[1..], sep);
      JoinSplit(s[1..], sep);
      if s[0] == sep {
        assert ([[]] + rest)[1..] == rest;
      } else {
        var parts := [[s[0]] + rest[0]] + rest[1..];
        if |rest| == 1 {
          assert Join(rest, [sep]) == rest[0];
        } else {
          assert parts[1..] == rest[1..];
          assert Join(rest, [sep]) == rest[0] + [sep] + Join(rest[1..], [sep]);
        }
      }
    }
  }

  /** Splitting a join of separator-free fields gives the fields back. */
  lemma {:induction false} SplitJoin(parts: seq<string>, sep: char)
    requires |parts| >= 1
    requires forall k :: 0 <= k < |parts| ==> sep !in parts[k]
    ensures Split(Join(parts, [sep]), sep) == parts
  {
    if |parts| == 1 {
      SplitAfterless(parts[0], sep);
    } else {
      SplitJoin(parts[1..], sep);
      SplitAfter(parts[0], sep, Join(parts[1..], [sep]));
      assert [parts[0]] + parts[1..] == parts;
    }
  }

  /** A string without the separator splits into itself alone. */
  lemma {:induction false} SplitAfterless(x: string, sep: char)
    requires sep !in x
    ensures Split(x, sep) == [x]
  {
    if x != [] {
      SplitAfterless(x[1..], sep);
      assert [x[0]] + x[1..] == x;
    }
  }

  // ---------------------------------------------------------------------------
  // The position of each part inside a join
  // ---------------------------------------------------------------------------

  /** Where `parts[k]` starts inside `Join(parts, sep)`. */
  function Offset(parts: seq<string>, sep: string, k: nat): nat
    requires k <= |parts|
  {
    if k == 0 then 0 else |parts[0]| + |sep| + Offset(parts[1..], sep, k - 1)
  }

  /** The join ends exactly where its last part ends. */
  lemma {:induction false} JoinLength(parts: seq<string>, sep: string)
    requires parts != []
    ensures |Join(parts, sep)| == Offset(parts, sep, |parts| - 1) + |parts[|parts| - 1]|
  {
    if |parts| > 1 {
      JoinLength(parts[1..], sep);
      assert parts[1..][|parts| - 2] == parts[|parts| - 1];
    }
  }

  /** The join starts with the first part and ends with the last. */
  lemma JoinEnds(parts: seq<string>, sep: string)
    requires parts != []
    ensures |parts[0]| <= |Join(parts, sep)| && Join(parts, sep)[..|parts[0]|] == parts[0]
    ensures |parts[|parts| - 1]| <= |Join(parts, sep)|
    ensures Join(parts, sep)[|Join(parts, sep)| - |parts[|parts| - 1]|..] == parts[|parts| - 1]
  {
    JoinLength(parts, sep);
    JoinAt(parts, sep, |parts| - 1);
  }

  /** Part `k` occurs in the join at `Offset(parts, sep, k)`. */
  lemma {:induction false} JoinAt(parts: seq<string>, sep: string, k: nat)
    requires k < |parts|
    ensures OccursAt(Join(parts, sep), Offset(parts, sep, k), parts[k])
  {
    var j := Join(parts, sep);
    if k == 0 {
      if |parts| > 1 {
        assert j == parts[0] + (sep + Join(parts[1..], sep));
        OccursAtStart(parts[0], sep + Join(parts[1..], sep));
      } else {
        assert j[0..|j|] == j;
      }
    } else {
      JoinAt(parts[1..], sep, k - 1);
      assert parts[1..][k - 1] == parts[k];
      JoinShift(parts, sep, Offset(parts[1..], sep, k - 1), parts[k]);
    }
  }

  /** Every part but the last is followed directly by the separator. */
  lemma {:induction false} JoinSeparatorAfter(parts: seq<string>, sep: string, k: nat)
    requires k + 1 < |parts|
    ensures OccursAt(Join(parts, sep), Offset(parts, sep, k) + |parts[k]|, sep)
  {
    if k == 0 {
      SeparatorAfterFirst(parts, sep);
    } else {
      JoinSeparatorAfter(parts[1..], sep, k - 1);
      assert parts[1..][k - 1] == parts[k];
      JoinShift(parts, sep, Offset(parts[1..], sep, k - 1) + |parts[k]|, sep);
    }
  }

  /** `part` occurs in `s` starting at position `p`. */
  predicate OccursAt(s: string, p: nat, part: string)
  {
    p + |part| <= |s| && s[p..p + |part|] == part
  }

  /** An occurrence in the join of all parts but the first is an occurrence
      in the whole join, after the first part and a separator. */
  lemma JoinShift(parts: seq<string>, sep: string, m: nat, part: string)
    requires 1 < |parts|
    requires OccursAt(Join(parts[1..], sep), m, part)
    ensures OccursAt(Join(parts, sep), |parts[0]| + |sep| + m, part)
  {
    var head, tail := parts[0] + sep, Join(parts[1..], sep);
    assert Join(parts, sep) == head + tail;
    OccursAfter(head, tail, m, part);
  }

  /** The first separator of a join follows the first part. */
  lemma SeparatorAfterFirst(parts: seq<string>, sep: string)
    requires 1 < |parts|
    ensures OccursAt(Join(parts, sep), |parts[0]|, sep)
  {
    var tail := Join(parts[1..], sep);
    assert Join(parts, sep) == parts[0] + (sep + tail);
    OccursAtStart(sep, tail);
    OccursAfter(parts[0], sep + tail, 0, sep);
  }

  /** A string occurs at the start of any extension of it. */
  lemma OccursAtStart(a: string, b: string)
    ensures OccursAt(a + b, 0, a)
  {
    assert (a + b)[..|a|] == a;
  }

  /** An occurrence in `tail` is an occurrence in `head + tail`, shifted. */
  lemma OccursAfter(head: string, tail: string, p: nat, part: string)
    requires OccursAt(tail, p, part)
    ensures OccursAt(head + tail, |head| + p, part)
  {
    SliceOfAppend(head, tail, p, p + |part|);
  }

  /** Parts `i < j` of a join occur in order, part `i` directly followed by
      the separator. */
  lemma JoinInOrder(parts: seq<string>, sep: string, i: nat, j: nat) returns (p: nat, q: nat)
    requires i < j < |parts|
    ensures p + |parts[i]| + |sep| <= q
    ensures OccursAt(Join(parts, sep), p, parts[i])
    ensures OccursAt(Join(parts, sep), p + |parts[i]|, sep)
    ensures OccursAt(Join(parts, sep), q, parts[j])
  {
    p := Offset(parts, sep, i);
    q := Offset(parts, sep, j);
    JoinAt(parts, sep, i);
    JoinAt(parts, sep, j);
    OffsetIncreases(parts, sep, i, j);
    JoinSeparatorAfter(parts, sep, i);
  }

  /** Parts are laid out in order: part `i` ends, and a separator follows it,
      before part `j` begins. */
  lemma {:induction false} OffsetIncreases(parts: seq<string>, sep: string, i: nat, j: nat)
    requires i < j <= |parts|
    ensures Offset(parts, sep, i) + |parts[i]| + |sep| <= Offset(parts, sep, j)
  {
    if i > 0 {
      OffsetIncreases(parts[1..], sep, i - 1, j - 1);
    } else if j > 1 {
      OffsetIncreases(parts[1..], sep, 0, j - 1);
    }
  }

  // ---------------------------------------------------------------------------
  // str(n) for a natural number, and int(s)
  // ---------------------------------------------------------------------------

  predicate IsDigit(c: char)
  {
    '0' <= c <= '9'
  }

  function DigitChar(d: nat): (c: char)
    requires d < 10
    ensures IsDigit(c) && (c as int) - ('0' as int) == d
  {
    ('0' as int + d) as char
  }

  /** Python's `str(n)` for `n >= 0`: decimal digits, no sign, no padding. */
  function NatToString(n: nat): (s: string)
    ensures |s| >= 1
    ensures forall k :: 0 <= k < |s| ==> IsDigit(s[k])
    ensures s[0] == '0' ==> n == 0
  {
    if n < 10 then [DigitChar(n)]
    else
      var prefix := NatToString(n / 10);
      var s := prefix + [DigitChar(n % 10)];
      assert s[0] == prefix[0];
      s
  }

  /** How many decimal digits `s` starts with. */
  function LeadingDigits(s: string): (n: nat)
    ensures n <= |s|
  {
    if s != [] && IsDigit(s[0]) then 1 + LeadingDigits(s[1..]) else 0
  }

  /** Digits followed by something that does not start with a digit: the
      digit run is exactly the digits. */
  lemma {:induction false} LeadingDigitsOf(a: string, rest: string)
    requires forall k :: 0 <= k < |a| ==> IsDigit(a[k])
    requires rest == [] || !IsDigit(rest[0])
    ensures LeadingDigits(a + rest) == |a|
  {
    if a != [] {
      assert (a + rest)[0] == a[0];
      assert (a + rest)[1..] == a[1..] + rest;
      LeadingDigitsOf(a[1..], rest);
    } else {
      assert a + rest == rest;
    }
  }

  /** A digit run followed by a non-digit can be split off in one way only. */
  lemma DigitsThenRest(a: string, r1: string, b: string, r2: string)
    requires forall k :: 0 <= k < |a| ==> IsDigit(a[k])
    requires forall k :: 0 <= k < |b| ==> IsDigit(b[k])
    requires r1 == [] || !IsDigit(r1[0])
    requires r2 == [] || !IsDigit(r2[0])
    requires a + r1 == b + r2
    ensures a == b && r1 == r2
  {
    LeadingDigitsOf(a, r1);
    LeadingDigitsOf(b, r2);
    assert a == (a + r1)[..|a|] && b == (b + r2)[..|b|];
    assert r1 == (a + r1)[|a|..] && r2 == (b + r2)[|b|..];
  }

  /** The value of a string of decimal digits, most significant first. */
  function DigitsValue(s: string): nat
    requires forall k :: 0 <= k < |s| ==> IsDigit(s[k])
  {
    if s == [] then 0
    else DigitsValue(s[..|s| - 1]) * 10 + DigitValue(s[|s| - 1])
  }

  function DigitValue(c: char): nat
    requires IsDigit(c)
  {
    (c as int) - ('0' as int)
  }

  predicate AllDigits(s: string)
  {
    |s| >= 1 && forall k :: 0 <= k < |s| ==> IsDigit(s[k])
  }

  /** Python's `int(s)` on text with an optional sign and ASCII digits; `None`
      stands for the `ValueError` Python raises on anything else. */
  function ParseInt(s: string): (r: Option<int>)
    ensures r.Some? <==> AllDigits(s) || (|s| >= 2 && s[0] in "+-" && AllDigits(s[1..]))
  {
    if AllDigits(s) then Some(DigitsValue(s))
    else if |s| >= 2 && s[0] == '+' && AllDigits(s[1..]) then Some(DigitsValue(s[1..]))
    else if |s| >= 2 && s[0] == '-' && AllDigits(s[1..]) then Some(0 - DigitsValue(s[1..]) as int)
    else None
  }

  /** `int(str(n)) == n`. */
  lemma {:induction false} ParseNatToString(n: nat)
    ensures ParseInt(NatToString(n)) == Some(n)
  {
    DigitsOfNat(n);
  }

  /** Different numbers print differently. */
  lemma NatToStringInjective(a: nat, b: nat)
    requires NatToString(a) == NatToString(b)
    ensures a == b
  {
    DigitsOfNat(a);
    DigitsOfNat(b);
  }

  lemma {:induction false} DigitsOfNat(n: nat)
    ensures DigitsValue(NatToString(n)) == n
  {
    var s := NatToString(n);
    if n >= 10 {
      DigitsOfNat(n / 10);
      assert s[..|s| - 1] == NatToString(n / 10);
    } else {
      assert s[..|s| - 1] == [];
    }
  }

  /** The decimal rendering contains no space, so it stays one field under
      `split(" ")`. */
  lemma NatToStringHasNoSpace(n: nat)
    ensures ' ' !in NatToString(n)
  {
    var s := NatToString(n);
    assert forall k :: 0 <= k < |s| ==> s[k] != ' ';
  }
}
