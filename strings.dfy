/**
 * The few Python 2 string operations the modules rely on: `str.split` with a
 * one-character separator, `str.join`, `str.strip` and `str(n)` for
 * integers, each with the property that makes it usable in a proof
 * (split and join are inverse, `str` can be read back).
 */
module Strings {

  /** Concatenation regroups; stated once so that proofs about appended output can cite it. */
  lemma ConcatAssoc<T>(a: seq<T>, b: seq<T>, c: seq<T>)
    ensures a + b + c == a + (b + c)
  {
  }

  // ---------------------------------------------------------------------
  // sep.join(parts) and s.split(sep)

  /** `sep.join(parts)`: the parts with `sep` between neighbours. */
  function Join(parts: seq<string>, sep: string): string
  {
    if |parts| == 0 then ""
    else if |parts| == 1 then parts[0]
    else parts[0] + sep + Join(parts[1..], sep)
  }

  /** Where the i-th part starts in `Join(parts, sep)`: the parts before it and their separators. */
  function Offset(parts: seq<string>, sep: string, i: nat): nat
    requires i <= |parts|
    decreases i
  {
    if i == 0 then 0 else |parts[0]| + |sep| + Offset(parts[1..], sep, i - 1)
  }

  /** A slice that lies in the second operand of a concatenation. */
  lemma SliceAfter<T>(a: seq<T>, b: seq<T>, lo: nat, hi: nat)
    requires lo <= hi <= |b|
    ensures (a + b)[|a| + lo..|a| + hi] == b[lo..hi]
  {
    assert forall k :: 0 <= k < hi - lo ==> (a + b)[|a| + lo..|a| + hi][k] == b[lo..hi][k];
  }

  /** A slice that lies in the first operand of a concatenation. */
  lemma SliceBefore<T>(a: seq<T>, b: seq<T>, lo: nat, hi: nat)
    requires lo <= hi <= |a|
    ensures (a + b)[lo..hi] == a[lo..hi]
  {
    assert forall k :: 0 <= k < hi - lo ==> (a + b)[lo..hi][k] == a[lo..hi][k];
  }

  /** Python's `t in s` on strings: `t` occurs in `s` as a substring. */
  predicate Occurs(t: string, s: string)
  {
    exists k :: 0 <= k <= |s| && t <= s[k..]
  }

  /** A substring of `s` is a substring of anything `s` is a prefix or suffix of. */
  lemma OccursWithin(t: string, p: string, s: string, z: string)
    requires Occurs(t, s)
    ensures Occurs(t, p + s) && Occurs(t, s + z)
  {
    var k :| 0 <= k <= |s| && t <= s[k..];
    assert (p + s)[|p| + k..] == s[k..];
    assert t <= (s + z)[k..] by {
      assert (s + z)[k..] == s[k..] + z;
    }
  }

  /** A join starts with its first part, which the separator follows when there are more. */
  lemma JoinHead(parts: seq<string>, sep: string)
    requires |parts| >= 1
    ensures |parts[0]| <= |Join(parts, sep)| && Join(parts, sep)[..|parts[0]|] == parts[0]
    ensures |parts| > 1 ==> && |parts[0]| + |sep| <= |Join(parts, sep)|
                            && Join(parts, sep)[|parts[0]|..|parts[0]| + |sep|] == sep
                            && Join(parts, sep) == (parts[0] + sep) + Join(parts[1..], sep)
  {
    if |parts| > 1 {
      var rest := Join(parts[1..], sep);
      SliceBefore(parts[0] + sep, rest, 0, |parts[0]|);
      SliceBefore(parts[0] + sep, rest, |parts[0]|, |parts[0]| + |sep|);
    }
  }

  /** Each part sits at its offset in the join, followed by the separator unless it is the last. */
  lemma {:induction false} JoinAt(parts: seq<string>, sep: string, i: nat)
    requires i < |parts|
    ensures var o := Offset(parts, sep, i);
            && o + |parts[i]| <= |Join(parts, sep)| && Join(parts, sep)[o..o + |parts[i]|] == parts[i]
            && (i + 1 < |parts| ==>
                  o + |parts[i]| + |sep| <= |Join(parts, sep)|
                  && Join(parts, sep)[o + |parts[i]|..o + |parts[i]| + |sep|] == sep)
    decreases i
  {
    JoinHead(parts, sep);
    if i > 0 {
      var w, rest := parts[0] + sep, Join(parts[1..], sep);
      JoinAt(parts[1..], sep, i - 1);
      assert parts[1..][i - 1] == parts[i];
      var o := Offset(parts[1..], sep, i - 1);
      var e := o + |parts[i]|;
      SliceAfter(w, rest, o, e);
      if i + 1 < |parts| {
        SliceAfter(w, rest, e, e + |sep|);
      }
    }
  }

  /**
   * `s.split(sep)` for a one-character separator: the maximal runs of `s`
   * between separators, so at least one (possibly empty) piece, none of
   * which contains `sep`.
   */
  function Split(s: string, sep: char): (r: seq<string>)
    ensures |r| >= 1
    ensures forall i :: 0 <= i < |r| ==> sep !in r[i]
  {
    if |s| == 0 then [""]
    else
      var rest := Split(s[1..], sep);
      if s[0] == sep then [""] + rest
      else [[s[0]] + rest[0]] + rest[1..]
  }

  /** Joining the pieces of a split with the separator gives the string back. */
  lemma {:induction false} JoinSplit(s: string, sep: char)
    ensures Join(Split(s, sep), [sep]) == s
  {
    if |s| > 0 {
      var rest := Split(s[1..], sep);
      JoinSplit(s[1..], sep);
      if s[0] == sep {
        assert Split(s, sep) == [""] + rest;
        assert ([""] + rest)[1..] == rest;
      } else {
        var r := Split(s, sep);
        assert r == [[s[0]] + rest[0]] + rest[1..];
        if |rest| == 1 {
          assert Join(r, [sep]) == [s[0]] + rest[0];
        } else {
          assert r[1..] == rest[1..];
          assert Join(r, [sep]) == [s[0]] + rest[0] + [sep] + Join(rest[1..], [sep]);
        }
        assert s == [s[0]] + s[1..];
      }
    }
  }

  /** A piece without the separator splits to itself. */
  lemma {:induction false} SplitPlain(p: string, sep: char)
    requires sep !in p
    ensures Split(p, sep) == [p]
  {
    if |p| > 0 {
      SplitPlain(p[1..], sep);
      assert [p[0]] + p[1..] == p;
    }
  }

  /** A separator-free piece followed by the separator splits off as one piece. */
  lemma {:induction false} SplitAfterPiece(p: string, sep: char, t: string)
    requires sep !in p
    ensures Split(p + [sep] + t, sep) == [p] + Split(t, sep)
  {
    if |p| == 0 {
      assert p + [sep] + t == [sep] + t;
      assert ([sep] + t)[1..] == t;
    } else {
      var s := p + [sep] + t;
      assert s[0] == p[0] && s[1..] == p[1..] + [sep] + t;
      SplitAfterPiece(p[1..], sep, t);
      assert [p[0]] + p[1..] == p;
    }
  }

  /** Splitting a join of separator-free pieces gives the pieces back. */
  lemma {:induction false} SplitJoin(parts: seq<string>, sep: char)
    requires |parts| >= 1
    requires forall i :: 0 <= i < |parts| ==> sep !in parts[i]
    ensures Split(Join(parts, [sep]), sep) == parts
  {
    if |parts| == 1 {
      SplitPlain(parts[0], sep);
    } else {
      SplitJoin(parts[1..], sep);
      SplitAfterPiece(parts[0], sep, Join(parts[1..], [sep]));
      assert [parts[0]] + parts[1..] == parts;
    }
  }

  // ---------------------------------------------------------------------
  // s.strip()

  /** The characters Python 2's `str.strip()` removes: ASCII whitespace. */
  predicate IsSpace(c: char)
  {
    c == ' ' || c == '\t' || c == '\n' || c == '\r' || c == '\U{0B}' || c == '\U{0C}'
  }

  /** The index of the first non-whitespace character at or after `i` (or `|s|`). */
  function FirstNonSpace(s: string, i: nat): (n: nat)
    requires i <= |s|
    ensures i <= n <= |s|
    ensures forall k :: i <= k < n ==> IsSpace(s[k])
    ensures n == |s| || !IsSpace(s[n])
    decreases |s| - i
  {
    if i < |s| && IsSpace(s[i]) then FirstNonSpace(s, i + 1) else i
  }

  /** One past the last non-whitespace character of `s[lo..j]` (or `lo`). */
  function EndNonSpace(s: string, lo: nat, j: nat): (n: nat)
    requires lo <= j <= |s|
    ensures lo <= n <= j
    ensures forall k :: n <= k < j ==> IsSpace(s[k])
    ensures n == lo || !IsSpace(s[n - 1])
  {
    if j > lo && IsSpace(s[j - 1]) then EndNonSpace(s, lo, j - 1) else j
  }

  /**
   * `s.strip()`: the middle part of `s` that neither starts nor ends with
   * whitespace, with only whitespace around it.
   */
  function Strip(s: string): (r: string)
    ensures var i := FirstNonSpace(s, 0);
            && i + |r| <= |s| && r == s[i..i + |r|]
            && (forall k :: 0 <= k < i ==> IsSpace(s[k]))
            && (forall k :: i + |r| <= k < |s| ==> IsSpace(s[k]))
    ensures r == [] || (!IsSpace(r[0]) && !IsSpace(r[|r| - 1]))
  {
    var i := FirstNonSpace(s, 0);
    s[i..EndNonSpace(s, i, |s|)]
  }

  // ---------------------------------------------------------------------
  // str(n) for integers

  predicate IsDigit(c: char)
  {
    '0' as int <= c as int <= '9' as int
  }

  function DigitChar(d: nat): (c: char)
    requires d < 10
    ensures IsDigit(c) && DigitValue(c) == d
  {
    ['0', '1', '2', '3', '4', '5', '6', '7', '8', '9'][d]
  }

  function DigitValue(c: char): nat
    requires IsDigit(c)
  {
    c as int - '0' as int
  }

  /** The number a string of decimal digits denotes. */
  function DigitsValue(s: string): nat
    requires forall i :: 0 <= i < |s| ==> IsDigit(s[i])
  {
    if |s| == 0 then 0 else DigitsValue(s[..|s| - 1]) * 10 + DigitValue(s[|s| - 1])
  }

  /** `str(n)` for `n >= 0`: its decimal digits, without leading zeros. */
  function NatToString(n: nat): (r: string)
    ensures |r| >= 1 && forall i :: 0 <= i < |r| ==> IsDigit(r[i])
    ensures r[0] == '0' ==> n == 0
    ensures n < 100 ==> |r| == if n < 10 then 1 else 2
  {
    if n < 10 then [DigitChar(n)] else NatToString(n / 10) + [DigitChar(n % 10)]
  }

  /** Reading the digits of `str(n)` back gives `n`. */
  lemma {:induction false} NatToStringValue(n: nat)
    ensures DigitsValue(NatToString(n)) == n
  {
    if n >= 10 {
      NatToStringValue(n / 10);
      var s := NatToString(n);
      assert s[..|s| - 1] == NatToString(n / 10);
    }
  }

  /** `str(i)` for any integer: a minus sign before the digits when negative. */
  function IntToString(i: int): (r: string)
    ensures forall k :: 0 <= k < |r| ==> IsDigit(r[k]) || r[k] == '-'
  {
    if i < 0 then "-" + NatToString(-i) else NatToString(i)
  }

  /** The integer a string produced by `str` denotes. */
  function ReadInt(s: string): int
    requires |s| >= 1
    requires forall k :: (if s[0] == '-' then 1 else 0) <= k < |s| ==> IsDigit(s[k])
  {
    if s[0] == '-' then 0 - DigitsValue(s[1..]) else DigitsValue(s)
  }

  /** `str` on integers can be read back, so it is injective. */
  lemma IntToStringValue(i: int)
    ensures var r := IntToString(i); |r| >= 1 && ReadInt(r) == i
  {
    if i < 0 {
      NatToStringValue(-i);
      assert IntToString(i)[1..] == NatToString(-i);
    } else {
      NatToStringValue(i);
    }
  }
}
