/** Shared vocabulary of the lexer generator: the crate's type aliases
    (`StateID = usize`, `Action = String`), the error-carrying result of
    every fallible operation, and small facts about finite sets of ids. */
module Base {

  /** An automaton state identifier (`usize` in the crate; unbounded here). */
  type StateId = nat

  /** The verbatim action text attached to a rule. */
  type Action = string

  datatype Option<T> = None | Some(value: T)

  /** `Result<T, String>`: the crate reports every error as a message. */
  datatype Result<T> = Ok(value: T) | Err(error: string)

  /** The dense id set {0, ..., n - 1}. */
  function Range(n: nat): (r: set<nat>)
    ensures forall i: nat :: i in r <==> i < n
  {
    if n == 0 then {} else Range(n - 1) + {n - 1}
  }

  lemma {:induction false} RangeSize(n: nat)
    ensures |Range(n)| == n
  {
    if n == 0 {
      assert Range(n) == {};
    } else {
      RangeSize(n - 1);
      var prev := Range(n - 1);
      assert n - 1 !in prev;
      assert |Range(n)| == |prev + {n - 1}| == |prev| + 1;
    }
  }

  /** A dense id set {0, ..., k - 1} has k members. */
  lemma RangeCard(k: nat, s: set<nat>)
    requires s == Range(k)
    ensures |s| == k
  {
    RangeSize(k);
  }

  /** A subset is no larger than the set containing it. */
  lemma SubsetSize<T>(a: set<T>, b: set<T>)
    requires a <= b
    ensures |a| <= |b|
  {
    assert b == a + (b - a);
  }

  /** Some largest element of a non-empty set of ids (by induction on the set). */
  ghost function MaxWitness(s: set<nat>): (m: nat)
    requires s != {}
    ensures m in s && forall y :: y in s ==> y <= m
  {
    var x :| x in s;
    if s == {x} then x else
      var rest := s - {x};
      var r := MaxWitness(rest);
      assert forall y :: y in s ==> y == x || y in rest;
      if x > r then x else r
  }

  /** Some smallest element of a non-empty set of ids. */
  ghost function MinWitness(s: set<nat>): (m: nat)
    requires s != {}
    ensures m in s && forall y :: y in s ==> m <= y
  {
    var x :| x in s;
    if s == {x} then x else
      var rest := s - {x};
      var r := MinWitness(rest);
      assert forall y :: y in s ==> y == x || y in rest;
      if x < r then x else r
  }

  /** The largest id of a non-empty set (`iter().max().unwrap()`). */
  function MaxOf(s: set<nat>): (m: nat)
    requires s != {}
    ensures m in s && forall y :: y in s ==> y <= m
  {
    assert MaxWitness(s) in s;
    var m :| m in s && forall y :: y in s ==> y <= m;
    m
  }

  /** The smallest id of a non-empty set (the first one a `BTreeSet` yields). */
  function MinOf(s: set<nat>): (m: nat)
    requires s != {}
    ensures m in s && forall y :: y in s ==> m <= y
  {
    assert MinWitness(s) in s;
    var m :| m in s && forall y :: y in s ==> m <= y;
    m
  }

  /** `q` lists the members of `s` in strictly ascending order. */
  ghost predicate AscendingListing(q: seq<nat>, s: set<nat>)
  {
    && (forall x :: x in q <==> x in s)
    && (forall i, j :: 0 <= i < j < |q| ==> q[i] < q[j])
  }

  /** A listing has as many entries as the set has members. */
  lemma ListingSize(q: seq<nat>, s: set<nat>)
    requires AscendingListing(q, s)
    ensures |q| == |s|
  {
    AscendingCard(q);
    assert (set x: nat | x in q) == s;
  }

  /** Iterating a `BTreeSet<usize>`: the least remaining member first. */
  method AscendingIds(s: set<nat>) returns (q: seq<nat>)
    ensures AscendingListing(q, s) && |q| == |s|
  {
    q := [];
    var rest := s;
    while rest != {}
      invariant rest <= s
      invariant forall x :: x in q <==> x in s && x !in rest
      invariant forall i, j :: 0 <= i < j < |q| ==> q[i] < q[j]
      invariant forall i, y :: 0 <= i < |q| && y in rest ==> q[i] < y
      decreases rest
    {
      var m := MinOf(rest);
      q := q + [m];
      rest := rest - {m};
    }
    ListingSize(q, s);
  }

  /** The members of a strictly ascending sequence are as many as its length. */
  lemma {:induction false} AscendingCard(q: seq<nat>)
    requires forall i, j :: 0 <= i < j < |q| ==> q[i] < q[j]
    ensures |set x: nat | x in q| == |q|
  {
    if q != [] {
      var p := q[..|q| - 1];
      var last := q[|q| - 1];
      AscendingCard(p);
      var sq := set x: nat | x in q;
      var sp := set x: nat | x in p;
      assert sq == sp + {last} by {
        forall x | x in sq ensures x in sp || x == last {
          var k :| 0 <= k < |q| && q[k] == x;
          if k < |q| - 1 { assert p[k] == x; }
        }
      }
      assert last !in sp by {
        forall k | 0 <= k < |p| ensures p[k] != last { assert q[k] < q[|q| - 1]; }
      }
    } else {
      assert (set x: nat | x in q) == {};
    }
  }
}
