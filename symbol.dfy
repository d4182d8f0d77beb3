/** The transition label of both automata (`Symbol` in src/symbol.rs and
    its byte-for-byte copy `TransitionSymbol` in src/transition.rs): the
    empty move, one character, or a set of characters. */
module Symbols {
  import opened Text

  datatype Symbol = Epsilon | Char(c: char) | CharClass(chars: set<char>)

  /** The characters a label can consume. */
  function SymbolChars(sym: Symbol): set<char>
  {
    match sym
    case Epsilon => {}
    case Char(c) => {c}
    case CharClass(s) => s
  }

  /** Some least character of a non-empty set. */
  ghost function MinCharWitness(s: set<char>): (m: char)
    requires s != {}
    ensures m in s && forall y :: y in s ==> m <= y
  {
    var x :| x in s;
    if s == {x} then x else
      var rest := s - {x};
      var r := MinCharWitness(rest);
      assert forall y :: y in s ==> y == x || y in rest;
      if x < r then x else r
  }

  /** The least character of a non-empty set. */
  function MinChar(s: set<char>): (m: char)
    requires s != {}
    ensures m in s && forall y :: y in s ==> m <= y
  {
    assert MinCharWitness(s) in s;
    var m :| m in s && forall y :: y in s ==> m <= y;
    m
  }

  /** The members of a `BTreeSet<char>` in iteration (ascending) order. */
  function SortedChars(s: set<char>): (r: seq<char>)
    ensures |r| == |s|
    ensures forall c :: c in r <==> c in s
    ensures forall i, j :: 0 <= i < j < |r| ==> r[i] < r[j]
    decreases |s|
  {
    if s == {} then [] else
      var m := MinChar(s);
      var rest := SortedChars(s - {m});
      var r := [m] + rest;
      assert forall i, j :: 0 <= i < j < |r| ==> r[i] < r[j] by {
        forall i, j | 0 <= i < j < |r| ensures r[i] < r[j] {
          assert r[j] == rest[j - 1] && r[j] in s - {m};
          if i > 0 { assert r[i] == rest[i - 1]; }
        }
      }
      r
  }

  /** Two sets with the same ascending listing are the same set. */
  lemma SortedCharsInjective(s: set<char>, t: set<char>)
    requires SortedChars(s) == SortedChars(t)
    ensures s == t
  {
    assert forall c :: c in s <==> c in SortedChars(s);
  }

  /** The `Display` of a label: "ε", the character itself, or the class
      members in ascending order between brackets. */
  function Display(sym: Symbol): string
  {
    match sym
    case Epsilon => "\U{03B5}"
    case Char(c) => [c]
    case CharClass(s) => "[" + SortedChars(s) + "]"
  }

  /** The display of a class lists exactly its members, each once, in
      ascending order, between "[" and "]". */
  lemma DisplayCharClass(s: set<char>)
    ensures var r := Display(CharClass(s));
      && |r| == |s| + 2 && r[0] == '[' && r[|r| - 1] == ']'
      && (forall c :: c in r[1..|r| - 1] <==> c in s)
      && (forall i, j :: 1 <= i < j < |r| - 1 ==> r[i] < r[j])
  {
    var r := Display(CharClass(s));
    assert r[1..|r| - 1] == SortedChars(s);
  }

  /** Different classes display differently: the display can be read back. */
  lemma {:induction false} DisplayCharClassInjective(s: set<char>, t: set<char>)
    requires Display(CharClass(s)) == Display(CharClass(t))
    ensures s == t
  {
    var r, q := Display(CharClass(s)), Display(CharClass(t));
    assert r[1..|r| - 1] == SortedChars(s);
    assert q[1..|q| - 1] == SortedChars(t);
    SortedCharsInjective(s, t);
  }

  /** The derived `Ord` of the enum: variants in declaration order
      (Epsilon < Char < CharClass), characters by code point, classes
      lexicographically by their ascending member lists. */
  predicate Less(a: Symbol, b: Symbol)
  {
    match (a, b)
    case (Epsilon, Epsilon) => false
    case (Epsilon, _) => true
    case (Char(_), Epsilon) => false
    case (Char(x), Char(y)) => x < y
    case (Char(_), CharClass(_)) => true
    case (CharClass(s), CharClass(t)) => LexLess(SortedChars(s), SortedChars(t))
    case (CharClass(_), _) => false
  }

  lemma LessIrreflexive(a: Symbol)
    ensures !Less(a, a)
  {
    if a.CharClass? { LexLessIrreflexive(SortedChars(a.chars)); }
  }

  lemma LessTransitive(a: Symbol, b: Symbol, c: Symbol)
    requires Less(a, b) && Less(b, c)
    ensures Less(a, c)
  {
    if a.CharClass? && b.CharClass? && c.CharClass? {
      LexLessTransitive(SortedChars(a.chars), SortedChars(b.chars), SortedChars(c.chars));
    }
  }

  /** The order is total: distinct labels are always comparable. */
  lemma LessTotal(a: Symbol, b: Symbol)
    ensures a == b || Less(a, b) || Less(b, a)
  {
    if a.CharClass? && b.CharClass? {
      LexLessTotal(SortedChars(a.chars), SortedChars(b.chars));
      if SortedChars(a.chars) == SortedChars(b.chars) {
        SortedCharsInjective(a.chars, b.chars);
      }
    }
  }
}
