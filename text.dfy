/** String handling that the crate borrows from Rust's `str`: `trim`,
    `find`, `starts_with`, `contains`, `replace`, the lexicographic order of
    `String`/`BTreeSet<char>` keys, and decimal formatting of numbers.
    Characters are assumed to be ASCII, so a character index is a byte
    index. */
module Text {
  import opened Base

  /** `char::is_whitespace` restricted to ASCII: tab, line feed, vertical
      tab, form feed, carriage return and space. */
  predicate IsWhitespace(c: char)
  {
    c == ' ' || c == '\t' || c == '\n' || c == '\U{000B}' || c == '\U{000C}' || c == '\r'
  }

  /** Where the content of `s` begins: the first non-whitespace index at
      or after `i` (or `|s|`). */
  function ContentStart(s: string, i: nat): (n: nat)
    requires i <= |s|
    ensures i <= n <= |s|
    ensures forall k :: i <= k < n ==> IsWhitespace(s[k])
    ensures n < |s| ==> !IsWhitespace(s[n])
    decreases |s| - i
  {
    if i < |s| && IsWhitespace(s[i]) then ContentStart(s, i + 1) else i
  }

  /** Where the content of `s[lo..j]` ends: the index after its last
      non-whitespace character (or `lo`). */
  function ContentEnd(s: string, lo: nat, j: nat): (n: nat)
    requires lo <= j <= |s|
    ensures lo <= n <= j
    ensures forall k :: n <= k < j ==> IsWhitespace(s[k])
    ensures n > lo ==> !IsWhitespace(s[n - 1])
    decreases j
  {
    if j > lo && IsWhitespace(s[j - 1]) then ContentEnd(s, lo, j - 1) else j
  }

  /** `trim`: drop the whitespace at both ends. */
  function Trim(s: string): string
  {
    var i := ContentStart(s, 0);
    var j := ContentEnd(s, i, |s|);
    s[i..j]
  }

  /** What `trim` keeps: a contiguous piece of `s` that neither starts nor
      ends with whitespace, everything cut off on either side being
      whitespace. */
  lemma TrimShape(s: string)
    ensures var r := Trim(s);
      && (exists i, j ::
            && 0 <= i <= j <= |s| && r == s[i..j]
            && (forall k :: 0 <= k < i ==> IsWhitespace(s[k]))
            && (forall k :: j <= k < |s| ==> IsWhitespace(s[k])))
      && (r != [] ==> !IsWhitespace(r[0]) && !IsWhitespace(r[|r| - 1]))
  {
    var i := ContentStart(s, 0);
    var j := ContentEnd(s, i, |s|);
    assert Trim(s) == s[i..j];
  }

  /** Trimming twice changes nothing more. */
  lemma TrimIdempotent(s: string)
    ensures Trim(Trim(s)) == Trim(s)
  {
    var r := Trim(s);
    if r != [] {
      assert ContentStart(r, 0) == 0;
      assert ContentEnd(r, 0, |r|) == |r|;
    }
  }

  /** Text with content at both ends is its own trim. */
  lemma TrimClean(s: string)
    requires s != [] && !IsWhitespace(s[0]) && !IsWhitespace(s[|s| - 1])
    ensures Trim(s) == s
  {
    assert ContentStart(s, 0) == 0;
    assert ContentEnd(s, 0, |s|) == |s|;
  }

  /** Trimming drops a leading space. */
  lemma TrimSpaced(t: string)
    requires t != [] && !IsWhitespace(t[0]) && !IsWhitespace(t[|t| - 1])
    ensures Trim([' '] + t) == t
  {
    var s := [' '] + t;
    assert ContentStart(s, 1) == 1;
    assert ContentStart(s, 0) == 1;
    assert ContentEnd(s, 1, |s|) == |s|;
    assert s[1..] == t;
  }

  /** `s.starts_with(p)`. */
  predicate StartsWith(s: string, p: string)
  {
    |p| <= |s| && s[..|p|] == p
  }

  /** `s.find(c)`: the index of the first occurrence of `c`. */
  function IndexOf(s: string, c: char): (r: Option<nat>)
    ensures r.Some? ==> r.value < |s| && s[r.value] == c && c !in s[..r.value]
    ensures r.None? ==> c !in s
  {
    if s == [] then None
    else if s[0] == c then Some(0)
    else match IndexOf(s[1..], c)
      case None => None
      case Some(i) => assert s[..i + 1] == [s[0]] + s[1..][..i]; Some(i + 1)
  }

  /** `s.find(char::is_whitespace)`: the index of the first whitespace. */
  function IndexOfWhitespace(s: string): (r: Option<nat>)
    ensures r.Some? ==>
      && r.value < |s| && IsWhitespace(s[r.value])
      && forall k :: 0 <= k < r.value ==> !IsWhitespace(s[k])
    ensures r.None? ==> forall k :: 0 <= k < |s| ==> !IsWhitespace(s[k])
  {
    if s == [] then None
    else if IsWhitespace(s[0]) then Some(0)
    else match IndexOfWhitespace(s[1..])
      case None => None
      case Some(i) => Some(i + 1)
  }

  /** `s.contains(p)`: `p` occurs in `s` at some offset. */
  predicate Contains(s: string, p: string)
    decreases |s|
  {
    StartsWith(s, p) || (s != [] && Contains(s[1..], p))
  }

  /** `s.replace(p, v)`: every occurrence of `p`, found left to right without
      overlap, replaced by `v`. */
  function ReplaceAll(s: string, p: string, v: string): string
    requires p != []
    decreases |s|
  {
    if |s| < |p| then s
    else if s[..|p|] == p then v + ReplaceAll(s[|p|..], p, v)
    else [s[0]] + ReplaceAll(s[1..], p, v)
  }

  /** A string without an occurrence of `p` is left as it is. */
  lemma {:induction false} ReplaceAbsent(s: string, p: string, v: string)
    requires p != [] && !Contains(s, p)
    ensures ReplaceAll(s, p, v) == s
  {
    if |s| >= |p| {
      ReplaceAbsent(s[1..], p, v);
      assert [s[0]] + s[1..] == s;
    }
  }

  lemma {:induction false} ContainsPrefix(a: string, b: string, p: string)
    requires Contains(a, p)
    ensures Contains(a + b, p)
  {
    if !StartsWith(a, p) {
      ContainsPrefix(a[1..], b, p);
      assert (a + b)[1..] == a[1..] + b;
    } else {
      assert (a + b)[..|p|] == a[..|p|];
    }
  }

  lemma {:induction false} ContainsSuffix(a: string, b: string, p: string)
    requires Contains(b, p)
    ensures Contains(a + b, p)
  {
    if a == [] {
      assert a + b == b;
    } else {
      ContainsSuffix(a[1..], b, p);
      assert (a + b)[1..] == a[1..] + b;
    }
  }

  /** Replacing an occurrence of `p` by a text that itself contains `p`
      leaves an occurrence of `p`: a self-referencing macro never
      disappears. */
  lemma {:induction false} ReplaceKeepsSelfReference(s: string, p: string, v: string)
    requires p != [] && Contains(s, p) && Contains(v, p)
    ensures Contains(ReplaceAll(s, p, v), p)
  {
    if StartsWith(s, p) {
      ContainsPrefix(v, ReplaceAll(s[|p|..], p, v), p);
    } else {
      assert !StartsWith(s, p);
      ReplaceKeepsSelfReference(s[1..], p, v);
      ContainsSuffix([s[0]], ReplaceAll(s[1..], p, v), p);
    }
  }

  /** The order of `String` keys in a `BTreeMap` and of `BTreeSet<char>`
      values: lexicographic, a proper prefix first. */
  predicate LexLess(a: string, b: string)
    decreases |a|
  {
    if a == [] then b != []
    else if b == [] then false
    else if a[0] != b[0] then a[0] < b[0]
    else LexLess(a[1..], b[1..])
  }

  lemma {:induction false} LexLessIrreflexive(a: string)
    ensures !LexLess(a, a)
  {
    if a != [] { LexLessIrreflexive(a[1..]); }
  }

  lemma {:induction false} LexLessTransitive(a: string, b: string, c: string)
    requires LexLess(a, b) && LexLess(b, c)
    ensures LexLess(a, c)
  {
    if a != [] && b != [] && c != [] && a[0] == b[0] && b[0] == c[0] {
      LexLessTransitive(a[1..], b[1..], c[1..]);
    }
  }

  lemma {:induction false} LexLessTotal(a: string, b: string)
    ensures a == b || LexLess(a, b) || LexLess(b, a)
  {
    if a != [] && b != [] && a[0] == b[0] {
      LexLessTotal(a[1..], b[1..]);
      if a[1..] == b[1..] {
        assert a == [a[0]] + a[1..] && b == [b[0]] + b[1..];
      }
    }
  }

  /** Some least string of a non-empty set. */
  ghost function MinStringWitness(s: set<string>): (m: string)
    requires s != {}
    ensures m in s && forall y :: y in s && y != m ==> LexLess(m, y)
  {
    var x :| x in s;
    if s == {x} then x else
      var rest := s - {x};
      var r := MinStringWitness(rest);
      assert forall y :: y in s ==> y == x || y in rest;
      LexLessTotal(x, r);
      if LexLess(x, r) then
        assert forall y :: y in rest && y != r ==> LexLess(x, y) by {
          forall y | y in rest && y != r ensures LexLess(x, y) { LexLessTransitive(x, r, y); }
        }
        x
      else
        r
  }

  /** The least string of a non-empty set. */
  function MinString(s: set<string>): (m: string)
    requires s != {}
    ensures m in s && forall y :: y in s && y != m ==> LexLess(m, y)
  {
    assert MinStringWitness(s) in s;
    assert forall m1, m2 ::
      && m1 in s && (forall y :: y in s && y != m1 ==> LexLess(m1, y))
      && m2 in s && (forall y :: y in s && y != m2 ==> LexLess(m2, y))
      ==> m1 == m2
    by {
      forall m1, m2 |
        && m1 in s && (forall y :: y in s && y != m1 ==> LexLess(m1, y))
        && m2 in s && (forall y :: y in s && y != m2 ==> LexLess(m2, y))
        ensures m1 == m2
      {
        if m1 != m2 {
          LexLessTransitive(m1, m2, m1);
          LexLessIrreflexive(m1);
        }
      }
    }
    var m :| m in s && forall y :: y in s && y != m ==> LexLess(m, y);
    m
  }

  /** The members of a set of strings in ascending order (the iteration
      order of a `BTreeMap<String, _>`). */
  function SortedStrings(s: set<string>): (r: seq<string>)
    ensures |r| == |s|
    ensures forall x :: x in r <==> x in s
    ensures forall i, j :: 0 <= i < j < |r| ==> LexLess(r[i], r[j])
    decreases |s|
  {
    if s == {} then [] else
      var m := MinString(s);
      var rest := SortedStrings(s - {m});
      assert forall j :: 0 <= j < |rest| ==> LexLess(m, rest[j]) by {
        forall j | 0 <= j < |rest| ensures LexLess(m, rest[j]) { assert rest[j] in s - {m}; }
      }
      [m] + rest
  }

  /** The decimal digit of a value below ten. */
  function Digit(d: nat): (c: char)
    requires d < 10
    ensures '0' <= c <= '9' && c as int - '0' as int == d
  {
    ('0' as int + d) as char
  }

  /** `format!("{}", n)` for an unsigned number. */
  function NatToString(n: nat): (r: string)
    ensures |r| >= 1
    ensures forall i :: 0 <= i < |r| ==> '0' <= r[i] <= '9'
    ensures r[0] == '0' ==> n == 0 && r == "0"
  {
    if n < 10 then [Digit(n)] else NatToString(n / 10) + [Digit(n % 10)]
  }

  /** The value of a string of decimal digits. */
  function DigitsValue(s: string): nat
    requires forall i :: 0 <= i < |s| ==> '0' <= s[i] <= '9'
  {
    if s == [] then 0 else DigitsValue(s[..|s| - 1]) * 10 + (s[|s| - 1] as int - '0' as int)
  }

  /** Decimal formatting is read back by `DigitsValue`: the printed state
      numbers and character codes of the generated scanner are exact. */
  lemma {:induction false} NatToStringRoundTrip(n: nat)
    ensures DigitsValue(NatToString(n)) == n
  {
    if n >= 10 {
      NatToStringRoundTrip(n / 10);
      var s := NatToString(n);
      assert s[..|s| - 1] == NatToString(n / 10);
    }
  }

  /** Different numbers print differently. */
  lemma NatToStringInjective(m: nat, n: nat)
    requires NatToString(m) == NatToString(n)
    ensures m == n
  {
    NatToStringRoundTrip(m);
    NatToStringRoundTrip(n);
  }
}
