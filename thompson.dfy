/** The regular-expression tree that `From<Regex>` (src/nfa.rs) consumes.
    No file of the crate defines it; these are exactly the variants the
    conversion matches on. */
module Patterns {
  import Base

  datatype Regex =
    | Empty
    | Char(c: char)
    | CharClass(chars: set<char>)
    | NegatedCharClass(chars: set<char>)
    | Dot
    | Concat(left: Regex, right: Regex)
    | Union(left: Regex, right: Regex)
    | Kleene(inner: Regex)
    | Option(inner: Regex)
    | Plus(inner: Regex)
    | Bounded(inner: Regex, min: nat, max: Base.Option<nat>)
}

/** The rest of src/nfa.rs, built on the combinators of `Nfas`: the
    one-edge fragments (`empty`, `char`, `char_class`,
    `negated_char_class`, `dot`), `is_empty`, the left folds
    `concat_multiples` and `union_multiples`, `bounded`, and the
    conversion from a `Regex` tree. */
module Thompson {
  import opened Base
  import opened Symbols
  import opened Nfas
  import P = Patterns

  // ---------------------------------------------------------------------
  // One-edge fragments
  // ---------------------------------------------------------------------

  /** The characters with codes 0..127. */
  const Ascii: set<char> := set i | 0 <= i < 128 :: i as char

  lemma AsciiMembers(c: char)
    ensures c in Ascii <==> (c as int) < 128
  {
    if (c as int) < 128 {
      assert (c as int) as char == c;
    }
  }

  /** The fragment start --sym--> end on ids 0 and 1. */
  function SingleEdgeOf(sym: Symbol): Nfa
  {
    Assemble(2, SymbolChars(sym), {(0, sym, 1)}, 0, {1}, map[])
  }

  /** A one-edge fragment has the states {0, 1}, starts at 0, accepts at 1,
      has the single edge 0 --sym--> 1 and is well formed. */
  lemma SingleEdgeShape(sym: Symbol)
    ensures var n := SingleEdgeOf(sym);
      && n.states == {0, 1} && n.start == 0 && n.finals == {1} && n.actions == map[]
      && Edges(n.transitions) == {(0, sym, 1)}
      && WellFormed(n)
  {
    SingleEdgeParts(sym);
    SingleEdgeWellFormed(sym);
  }

  lemma SingleEdgeParts(sym: Symbol)
    ensures var n := SingleEdgeOf(sym);
      && n.states == {0, 1} && n.start == 0 && n.finals == {1} && n.actions == map[]
      && Edges(n.transitions) == {(0, sym, 1)}
  {
    assert Range(2) == {0, 1};
    EdgesOfFromEdges({(0, sym, 1)});
  }

  lemma SingleEdgeWellFormed(sym: Symbol)
    ensures WellFormed(SingleEdgeOf(sym))
  {
    EdgesOfFromEdges({(0, sym, 1)});
    assert EdgeChars({(0, sym, 1)}) == SymbolChars(sym);
    WellFormedOfParts(SingleEdgeOf(sym), 2, {(0, sym, 1)});
  }

  /** The body shared by `empty`, `char` and `char_class`: two fresh states,
      the first the start, the second final, one edge between them. */
  method SingleEdge(sym: Symbol) returns (r: Nfa)
    ensures r == SingleEdgeOf(sym)
  {
    var start, end;
    r, start := AddState(Default);
    NextIdOfRange(0, start);
    r, end := AddState(r);
    NextIdOfRange(1, end);
    r := r.(start := start);
    r := r.(finals := r.finals + {end});
    EdgesOfEmpty();
    r := AddTransition(r, start, sym, end);
    Assembled(r, 2, {(0, sym, 1)});
  }

  /** `empty`: the fragment accepting only the empty word. */
  method Empty() returns (r: Nfa)
    ensures r == SingleEdgeOf(Epsilon)
  {
    r := SingleEdge(Epsilon);
  }

  /** `char`. */
  method CharNfa(c: char) returns (r: Nfa)
    ensures r == SingleEdgeOf(Char(c))
  {
    r := SingleEdge(Char(c));
  }

  /** `char_class`. */
  method CharClassNfa(chars: set<char>) returns (r: Nfa)
    ensures r == SingleEdgeOf(CharClass(chars))
  {
    r := SingleEdge(CharClass(chars));
  }

  /** `negated_char_class`: the class of the ASCII characters outside
      `chars`. */
  method NegatedCharClass(chars: set<char>) returns (r: Nfa)
    ensures r == SingleEdgeOf(CharClass(Ascii - chars))
  {
    var negated: set<char> := {};
    var i := 0;
    while i < 128
      invariant 0 <= i <= 128
      invariant forall c: char :: c in negated <==> (c as int) < i && c !in chars
    {
      var c := i as char;
      if c !in chars {
        negated := negated + {c};
      }
      i := i + 1;
    }
    assert negated == Ascii - chars by {
      forall c: char ensures c in negated <==> c in Ascii - chars { AsciiMembers(c); }
    }
    r := CharClassNfa(negated);
  }

  /** `dot`: the class of all ASCII characters. */
  method Dot() returns (r: Nfa)
    ensures r == SingleEdgeOf(CharClass(Ascii))
  {
    var chars: set<char> := {};
    var i := 0;
    while i < 128
      invariant 0 <= i <= 128
      invariant forall c: char :: c in chars <==> (c as int) < i
    {
      chars := chars + {i as char};
      i := i + 1;
    }
    assert chars == Ascii by {
      forall c: char ensures c in chars <==> c in Ascii { AsciiMembers(c); }
    }
    r := CharClassNfa(chars);
  }

  /** `is_empty`: structural equality with `empty()`. */
  predicate IsEmpty(n: Nfa)
  {
    n == SingleEdgeOf(Epsilon)
  }

  /** What `is_empty` recognises: exactly the two-state fragment whose only
      edge is an ε-move from the start 0 to the final state 1. */
  lemma IsEmptyShape(n: Nfa)
    ensures IsEmpty(n) <==>
      && n.states == {0, 1} && n.alphabet == {} && n.start == 0 && n.finals == {1}
      && n.actions == map[] && NoEmptyTargets(n.transitions)
      && Edges(n.transitions) == {(0, Epsilon, 1)}
  {
    SingleEdgeShape(Epsilon);
    EdgesOfFromEdges({(0, Epsilon, 1)});
    if && n.states == {0, 1} && n.alphabet == {} && n.start == 0 && n.finals == {1}
       && n.actions == map[] && NoEmptyTargets(n.transitions)
       && Edges(n.transitions) == {(0, Epsilon, 1)}
    {
      assert Range(2) == {0, 1};
      Assembled(n, 2, {(0, Epsilon, 1)});
    }
  }

  // ---------------------------------------------------------------------
  // concat_multiples and union_multiples
  // ---------------------------------------------------------------------

  ghost predicate AllValid(nfas: seq<Nfa>)
  {
    forall i | 0 <= i < |nfas| :: Valid(nfas[i])
  }

  /** `iter.fold(first, concat)` over the first `i` ≥ 1 operands. `concat`
      is defined on valid automata only, so the fold stops at an invalid
      operand; `ConcatFoldValid` shows that it never does when every operand
      is valid. */
  ghost function ConcatFold(nfas: seq<Nfa>, i: nat): Nfa
    requires 1 <= i <= |nfas|
    decreases i, 1
  {
    if i == 1 then nfas[0] else ConcatFoldStep(nfas, i)
  }

  /** The last step of that fold: the fold of the first `i - 1` operands,
      concatenated with operand `i - 1`. */
  ghost function ConcatFoldStep(nfas: seq<Nfa>, i: nat): Nfa
    requires 2 <= i <= |nfas|
    decreases i, 0
  {
    var acc := ConcatFold(nfas, i - 1);
    if Valid(acc) && Valid(nfas[i - 1]) then ConcatOf(acc, nfas[i - 1]) else acc
  }

  /** Folding valid operands gives a valid automaton, a well-formed one once
      `concat` has been applied. */
  lemma {:induction false} ConcatFoldValid(nfas: seq<Nfa>, i: nat)
    requires 1 <= i <= |nfas| && AllValid(nfas)
    ensures Valid(ConcatFold(nfas, i))
    ensures i >= 2 ==> WellFormed(ConcatFold(nfas, i))
  {
    if i > 1 {
      ConcatFoldValid(nfas, i - 1);
      ConcatWellFormed(ConcatFold(nfas, i - 1), nfas[i - 1]);
    }
  }

  /** `iter.fold(first, union)` over the first `i` ≥ 1 operands, stopping at
      an invalid operand as `ConcatFold` does. */
  ghost function UnionFold(nfas: seq<Nfa>, i: nat): Nfa
    requires 1 <= i <= |nfas|
    decreases i, 1
  {
    if i == 1 then nfas[0] else UnionFoldStep(nfas, i)
  }

  /** The last step of that fold. */
  ghost function UnionFoldStep(nfas: seq<Nfa>, i: nat): Nfa
    requires 2 <= i <= |nfas|
    decreases i, 0
  {
    var acc := UnionFold(nfas, i - 1);
    if Valid(acc) && Valid(nfas[i - 1]) then UnionOf(acc, nfas[i - 1]) else acc
  }

  /** Folding valid operands with `union` gives a valid automaton, a
      well-formed one once `union` has been applied. */
  lemma {:induction false} UnionFoldValid(nfas: seq<Nfa>, i: nat)
    requires 1 <= i <= |nfas| && AllValid(nfas)
    ensures Valid(UnionFold(nfas, i))
    ensures i >= 2 ==> WellFormed(UnionFold(nfas, i))
  {
    if i > 1 {
      UnionFoldValid(nfas, i - 1);
      UnionWellFormed(UnionFold(nfas, i - 1), nfas[i - 1]);
    }
  }

  /** `concat_multiples`: `empty()` for no operand, the operand itself for
      one, the left fold of `concat` otherwise. */
  ghost function ConcatMultiplesOf(nfas: seq<Nfa>): Nfa
  {
    if |nfas| == 0 then SingleEdgeOf(Epsilon) else ConcatFold(nfas, |nfas|)
  }

  /** `union_multiples`, likewise with `union`. */
  ghost function UnionMultiplesOf(nfas: seq<Nfa>): Nfa
  {
    if |nfas| == 0 then SingleEdgeOf(Epsilon) else UnionFold(nfas, |nfas|)
  }

  /** One step of the fold in `concat_multiples`. */
  method ConcatNext(nfas: seq<Nfa>, i: nat, acc: Nfa) returns (r: Nfa)
    requires AllValid(nfas) && 1 <= i < |nfas|
    requires acc == ConcatFold(nfas, i)
    ensures r == ConcatFold(nfas, i + 1)
  {
    ConcatFoldValid(nfas, i);
    r := Concat(acc, nfas[i]);
  }

  /** The `iter.fold` of `concat_multiples` over two or more operands. */
  method FoldConcat(nfas: seq<Nfa>) returns (r: Nfa)
    requires AllValid(nfas) && |nfas| >= 2
    ensures r == ConcatFold(nfas, |nfas|)
  {
    r := nfas[0];
    var i := 1;
    while i < |nfas|
      invariant 1 <= i <= |nfas|
      invariant r == ConcatFold(nfas, i)
    {
      r := ConcatNext(nfas, i, r);
      i := i + 1;
    }
  }

  /** `concat_multiples`. */
  method ConcatMultiples(nfas: seq<Nfa>) returns (r: Nfa)
    requires AllValid(nfas)
    ensures r == ConcatMultiplesOf(nfas)
  {
    if |nfas| == 0 {
      r := Empty();
    } else if |nfas| == 1 {
      r := nfas[0];
    } else {
      r := FoldConcat(nfas);
    }
  }

  /** One step of the fold in `union_multiples`. */
  method UnionNext(nfas: seq<Nfa>, i: nat, acc: Nfa) returns (r: Nfa)
    requires AllValid(nfas) && 1 <= i < |nfas|
    requires acc == UnionFold(nfas, i)
    ensures r == UnionFold(nfas, i + 1)
  {
    UnionFoldValid(nfas, i);
    r := Union(acc, nfas[i]);
  }

  /** The `iter.fold` of `union_multiples` over two or more operands. */
  method FoldUnion(nfas: seq<Nfa>) returns (r: Nfa)
    requires AllValid(nfas) && |nfas| >= 2
    ensures r == UnionFold(nfas, |nfas|)
  {
    r := nfas[0];
    var i := 1;
    while i < |nfas|
      invariant 1 <= i <= |nfas|
      invariant r == UnionFold(nfas, i)
    {
      r := UnionNext(nfas, i, r);
      i := i + 1;
    }
  }

  /** `union_multiples`. */
  method UnionMultiples(nfas: seq<Nfa>) returns (r: Nfa)
    requires AllValid(nfas)
    ensures r == UnionMultiplesOf(nfas)
  {
    if |nfas| == 0 {
      r := Empty();
    } else if |nfas| == 1 {
      r := nfas[0];
    } else {
      r := FoldUnion(nfas);
    }
  }

  /** The number of states of the first `i` operands together. */
  function TotalStates(nfas: seq<Nfa>, i: nat): nat
    requires i <= |nfas|
  {
    if i == 0 then 0 else TotalStates(nfas, i - 1) + |nfas[i - 1].states|
  }

  /** The fold of `concat` over i ≥ 1 operands has as many states as the
      operands together. */
  lemma {:induction false} ConcatFoldSize(nfas: seq<Nfa>, i: nat)
    requires AllValid(nfas) && 1 <= i <= |nfas|
    ensures |ConcatFold(nfas, i).states| == TotalStates(nfas, i)
  {
    if i >= 2 {
      ConcatFoldSize(nfas, i - 1);
      ConcatFoldValid(nfas, i - 1);
      ConcatSize(ConcatFold(nfas, i - 1), nfas[i - 1]);
    }
  }

  /** The fold of `union` over i ≥ 1 operands adds one fresh start per
      `union`: i - 1 states more than the operands together. */
  lemma {:induction false} UnionFoldSize(nfas: seq<Nfa>, i: nat)
    requires AllValid(nfas) && 1 <= i <= |nfas|
    ensures |UnionFold(nfas, i).states| == TotalStates(nfas, i) + i - 1
  {
    if i >= 2 {
      UnionFoldSize(nfas, i - 1);
      UnionFoldValid(nfas, i - 1);
      UnionSize(UnionFold(nfas, i - 1), nfas[i - 1]);
    }
  }

  lemma ConcatSize(a: Nfa, b: Nfa)
    requires Valid(a) && Valid(b)
    ensures |ConcatOf(a, b).states| == |a.states| + |b.states|
  {
    var c := ConcatOf(a, b);
    RangeCard(|a.states| + |b.states|, c.states);
  }

  lemma UnionSize(a: Nfa, b: Nfa)
    requires Valid(a) && Valid(b)
    ensures |UnionOf(a, b).states| == 1 + |a.states| + |b.states|
  {
    var c := UnionOf(a, b);
    RangeCard(1 + |a.states| + |b.states|, c.states);
  }

  /** `vec![x; k]`. */
  function Copies(x: Nfa, k: nat): (r: seq<Nfa>)
    ensures |r| == k && forall i | 0 <= i < k :: r[i] == x
  {
    seq(k, _ => x)
  }

  lemma CopiesValid(x: Nfa, k: nat)
    requires Valid(x)
    ensures AllValid(Copies(x, k))
  {
  }

  /** The first `i` of k copies of `x` have i * |x| states. */
  lemma {:induction false} CopiesTotal(x: Nfa, k: nat, i: nat)
    requires i <= k
    ensures TotalStates(Copies(x, k), i) == i * |x.states|
  {
    if i > 0 {
      CopiesTotal(x, k, i - 1);
    }
  }

  /** `concat_multiples` of valid operands is valid. */
  lemma ConcatMultiplesValid(nfas: seq<Nfa>)
    requires AllValid(nfas)
    ensures Valid(ConcatMultiplesOf(nfas))
    ensures (|nfas| != 1 || WellFormed(nfas[0])) ==> WellFormed(ConcatMultiplesOf(nfas))
  {
    SingleEdgeShape(Epsilon);
    if |nfas| > 0 {
      ConcatFoldValid(nfas, |nfas|);
    }
  }

  /** The `min` leading copies of `bounded`, concatenated (`empty()` for
      none). */
  ghost function Leading(inner: Nfa, min: nat): (r: Nfa)
    requires Valid(inner)
    ensures Valid(r) && (WellFormed(inner) ==> WellFormed(r))
  {
    CopiesValid(inner, min);
    ConcatMultiplesValid(Copies(inner, min));
    ConcatMultiplesOf(Copies(inner, min))
  }

  /** `count` optional copies of `inner`, concatenated. */
  ghost function Optionals(inner: Nfa, count: nat): (r: Nfa)
    requires Valid(inner)
    ensures WellFormed(r)
  {
    OptionalWellFormed(inner);
    CopiesValid(OptionalOf(inner), count);
    ConcatMultiplesValid(Copies(OptionalOf(inner), count));
    ConcatMultiplesOf(Copies(OptionalOf(inner), count))
  }

  /** What `bounded(inner, min, max)` builds: `kleene(inner)` for {0,}; else
      `min` copies concatenated (`empty()` for none), followed by
      `max - min` optional copies when `max` exceeds `min`, or by
      `kleene(inner)` when there is no upper bound. */
  ghost function BoundedOf(inner: Nfa, min: nat, max: Option<nat>): Nfa
    requires Valid(inner)
  {
    if min == 0 && max.None? then KleeneOf(inner)
    else if max.None? then
      KleeneWellFormed(inner);
      ConcatOf(Leading(inner, min), KleeneOf(inner))
    else if min < max.value then ConcatMultiplesOf([Leading(inner, min), Optionals(inner, max.value - min)])
    else Leading(inner, min)
  }

  /** The loop `for _ in min..max` of `bounded`: one `optional(inner)` per
      step, none when `max <= min`. */
  method OptionalParts(inner: Nfa, min: nat, max: nat) returns (parts: seq<Nfa>)
    requires Valid(inner)
    ensures parts == Copies(OptionalOf(inner), if min < max then max - min else 0)
  {
    parts := [];
    var j := min;
    while j < max
      invariant j == min || min < j <= max
      invariant parts == Copies(OptionalOf(inner), j - min)
    {
      var part := Optional(inner);
      parts := parts + [part];
      j := j + 1;
    }
  }

  /** `bounded` once an upper bound is given. */
  method BoundedUpTo(inner: Nfa, min: nat, max: nat) returns (r: Nfa)
    requires Valid(inner)
    ensures r == BoundedOf(inner, min, Some(max))
  {
    CopiesValid(inner, min);
    r := ConcatMultiples(Copies(inner, min));
    assert r == Leading(inner, min);
    var parts := OptionalParts(inner, min, max);
    if parts != [] {
      r := AppendOptionals(inner, r, parts);
    }
  }

  /** The tail of `bounded` when `min < max`: the leading part, followed by
      the concatenated optional copies. */
  method AppendOptionals(inner: Nfa, lead: Nfa, parts: seq<Nfa>) returns (r: Nfa)
    requires Valid(inner) && Valid(lead)
    requires parts != [] && parts == Copies(OptionalOf(inner), |parts|)
    ensures r == ConcatMultiplesOf([lead, Optionals(inner, |parts|)])
  {
    OptionalWellFormed(inner);
    CopiesValid(OptionalOf(inner), |parts|);
    var opts := ConcatMultiples(parts);
    assert opts == Optionals(inner, |parts|);
    r := ConcatMultiples([lead, opts]);
  }

  /** `bounded`. */
  method Bounded(inner: Nfa, min: nat, max: Option<nat>) returns (r: Nfa)
    requires Valid(inner)
    ensures r == BoundedOf(inner, min, max)
  {
    if min == 0 && max.None? {
      r := Kleene(inner);
      return;
    }
    match max {
      case Some(hi) =>
        r := BoundedUpTo(inner, min, hi);
      case None =>
        CopiesValid(inner, min);
        r := ConcatMultiples(Copies(inner, min));
        assert r == Leading(inner, min);
        var kleenePart := Kleene(inner);
        KleeneWellFormed(inner);
        r := Concat(r, kleenePart);
    }
  }

  /** The leading copies have 2 states for the `empty()` that stands for no
      copy, |inner| per copy otherwise. */
  lemma LeadingSize(inner: Nfa, min: nat)
    requires Valid(inner)
    ensures |Leading(inner, min).states| == if min == 0 then 2 else min * |inner.states|
  {
    SingleEdgeShape(Epsilon);
    if min > 0 {
      CopiesValid(inner, min);
      ConcatFoldSize(Copies(inner, min), min);
      CopiesTotal(inner, min, min);
    }
  }

  /** `count` ≥ 1 optional copies have |inner| + 2 states each. */
  lemma OptionalsSize(inner: Nfa, count: nat)
    requires Valid(inner) && count >= 1
    ensures |Optionals(inner, count).states| == count * (|inner.states| + 2)
  {
    OptionalWellFormed(inner);
    CopiesValid(OptionalOf(inner), count);
    ConcatFoldSize(Copies(OptionalOf(inner), count), count);
    CopiesTotal(OptionalOf(inner), count, count);
    RangeSize(|inner.states| + 2);
  }

  lemma KleeneSize(inner: Nfa)
    requires Valid(inner)
    ensures |KleeneOf(inner).states| == |inner.states| + 2
  {
    var c := KleeneOf(inner);
    RangeCard(|inner.states| + 2, c.states);
  }

  lemma OptionalSize(inner: Nfa)
    requires Valid(inner)
    ensures |OptionalOf(inner).states| == |inner.states| + 2
  {
    var c := OptionalOf(inner);
    RangeCard(|inner.states| + 2, c.states);
  }

  /** `concat_multiples` of two valid automata is well formed and has the
      states of both. */
  lemma ConcatMultiplesPair(a: Nfa, b: Nfa)
    requires Valid(a) && Valid(b)
    ensures WellFormed(ConcatMultiplesOf([a, b]))
    ensures |ConcatMultiplesOf([a, b]).states| == |a.states| + |b.states|
  {
    var ab := [a, b];
    assert AllValid(ab);
    ConcatFoldValid(ab, 2);
    ConcatFoldSize(ab, 2);
    assert TotalStates(ab, 1) == |a.states|;
  }

  /** `bounded(inner, min, None)` with min ≥ 1 is well formed. */
  lemma BoundedStarWellFormed(inner: Nfa, min: nat)
    requires Valid(inner) && min > 0
    ensures WellFormed(BoundedOf(inner, min, None))
  {
    KleeneWellFormed(inner);
    ConcatWellFormed(Leading(inner, min), KleeneOf(inner));
  }

  /** `bounded(inner, min, None)` with min ≥ 1 has the states of the leading
      copies (`LeadingSize`) and the |inner| + 2 states of the star. */
  lemma BoundedStarSize(inner: Nfa, min: nat)
    requires Valid(inner) && min > 0
    ensures |BoundedOf(inner, min, None).states| == |Leading(inner, min).states| + |inner.states| + 2
  {
    KleeneSize(inner);
    KleeneWellFormed(inner);
    ConcatSize(Leading(inner, min), KleeneOf(inner));
  }

  /** `bounded(inner, min, Some(max))` with min < max is well formed. */
  lemma BoundedRangeWellFormed(inner: Nfa, min: nat, max: nat)
    requires Valid(inner) && min < max
    ensures WellFormed(BoundedOf(inner, min, Some(max)))
  {
    ConcatMultiplesPair(Leading(inner, min), Optionals(inner, max - min));
  }

  /** `bounded(inner, min, Some(max))` with min < max has the states of the
      leading copies (`LeadingSize`) and of the max - min optional copies
      (`OptionalsSize`). */
  lemma BoundedRangeSize(inner: Nfa, min: nat, max: nat)
    requires Valid(inner) && min < max
    ensures |BoundedOf(inner, min, Some(max)).states| ==
      |Leading(inner, min).states| + |Optionals(inner, max - min).states|
  {
    ConcatMultiplesPair(Leading(inner, min), Optionals(inner, max - min));
  }

  /** A bounded repetition of a well-formed automaton is well formed. */
  lemma BoundedWellFormed(inner: Nfa, min: nat, max: Option<nat>)
    requires WellFormed(inner)
    ensures WellFormed(BoundedOf(inner, min, max))
  {
    if min == 0 && max.None? {
      KleeneWellFormed(inner);
    } else if max.None? {
      BoundedStarWellFormed(inner, min);
    } else if min < max.value {
      BoundedRangeWellFormed(inner, min, max.value);
    }
  }

  // ---------------------------------------------------------------------
  // From<Regex>
  // ---------------------------------------------------------------------

  /** The automaton `From<Regex>` builds, by structural recursion: a
      one-edge fragment for each leaf, a combinator over the children's
      automata for each inner node. The combinators are defined on valid
      automata only, so an inner node falls back to its first child's
      automaton when a child's is not valid; `NfaOfWellFormed` shows that
      this never happens. */
  ghost function NfaOf(re: P.Regex): Nfa
    decreases re, 2
  {
    if IsLeaf(re) then LeafOf(re) else NodeOf(re)
  }

  predicate IsLeaf(re: P.Regex)
  {
    re.Empty? || re.Char? || re.CharClass? || re.NegatedCharClass? || re.Dot?
  }

  /** The fragment of a leaf. */
  function LeafOf(re: P.Regex): Nfa
    requires IsLeaf(re)
  {
    match re
    case Empty => SingleEdgeOf(Epsilon)
    case Char(c) => SingleEdgeOf(Char(c))
    case CharClass(s) => SingleEdgeOf(CharClass(s))
    case NegatedCharClass(s) => SingleEdgeOf(CharClass(Ascii - s))
    case Dot => SingleEdgeOf(CharClass(Ascii))
  }

  /** The automaton of an inner node. */
  ghost function NodeOf(re: P.Regex): Nfa
    requires !IsLeaf(re)
    decreases re, 1
  {
    match re
    case Concat(a, b) => ConcatNode(a, b)
    case Union(a, b) => UnionNode(a, b)
    case Kleene(e) => KleeneNode(e)
    case Option(e) => OptionNode(e)
    case Plus(e) => PlusNode(e)
    case Bounded(e, min, max) => BoundedNode(e, min, max)
  }

  /** The automaton of a `Concat` node: `concat` of its children's. */
  ghost function ConcatNode(a: P.Regex, b: P.Regex): Nfa
    decreases P.Concat(a, b), 0
  {
    var x := NfaOf(a);
    var y := NfaOf(b);
    if Valid(x) && Valid(y) then ConcatOf(x, y) else x
  }

  /** The automaton of a `Union` node: `union` of its children's. */
  ghost function UnionNode(a: P.Regex, b: P.Regex): Nfa
    decreases P.Union(a, b), 0
  {
    var x := NfaOf(a);
    var y := NfaOf(b);
    if Valid(x) && Valid(y) then UnionOf(x, y) else x
  }

  /** The automaton of a `Kleene` node. */
  ghost function KleeneNode(e: P.Regex): Nfa
    decreases P.Kleene(e), 0
  {
    var x := NfaOf(e);
    if Valid(x) then KleeneOf(x) else x
  }

  /** The automaton of an `Option` node. */
  ghost function OptionNode(e: P.Regex): Nfa
    decreases P.Option(e), 0
  {
    var x := NfaOf(e);
    if Valid(x) then OptionalOf(x) else x
  }

  /** The automaton of a `Plus` node. */
  ghost function PlusNode(e: P.Regex): Nfa
    decreases P.Plus(e), 0
  {
    var x := NfaOf(e);
    if Valid(x) then PlusOf(x) else x
  }

  /** The automaton of a `Bounded` node. */
  ghost function BoundedNode(e: P.Regex, min: nat, max: Option<nat>): Nfa
    decreases P.Bounded(e, min, max), 0
  {
    var x := NfaOf(e);
    if Valid(x) then BoundedOf(x, min, max) else x
  }

  /** Every automaton `From<Regex>` builds is well formed. */
  lemma {:induction false} NfaOfWellFormed(re: P.Regex)
    ensures WellFormed(NfaOf(re))
    decreases re, 2
  {
    match re
    case Concat(a, b) => ConcatNodeWellFormed(a, b);
    case Union(a, b) => UnionNodeWellFormed(a, b);
    case Kleene(e) => KleeneNodeWellFormed(e);
    case Option(e) => OptionNodeWellFormed(e);
    case Plus(e) => PlusNodeWellFormed(e);
    case Bounded(e, min, max) => BoundedNodeWellFormed(e, min, max);
    case _ => LeafWellFormed(re);
  }

  lemma LeafWellFormed(re: P.Regex)
    requires IsLeaf(re)
    ensures WellFormed(LeafOf(re))
  {
    match re
    case Empty => SingleEdgeShape(Epsilon);
    case Char(c) => SingleEdgeShape(Char(c));
    case CharClass(s) => SingleEdgeShape(CharClass(s));
    case NegatedCharClass(s) => SingleEdgeShape(CharClass(Ascii - s));
    case Dot => SingleEdgeShape(CharClass(Ascii));
  }

  lemma {:induction false} ConcatNodeWellFormed(a: P.Regex, b: P.Regex)
    ensures WellFormed(ConcatNode(a, b))
    decreases P.Concat(a, b), 0
  {
    NfaOfWellFormed(a);
    NfaOfWellFormed(b);
    ConcatWellFormed(NfaOf(a), NfaOf(b));
  }

  lemma {:induction false} UnionNodeWellFormed(a: P.Regex, b: P.Regex)
    ensures WellFormed(UnionNode(a, b))
    decreases P.Union(a, b), 0
  {
    NfaOfWellFormed(a);
    NfaOfWellFormed(b);
    UnionWellFormed(NfaOf(a), NfaOf(b));
  }

  lemma {:induction false} KleeneNodeWellFormed(e: P.Regex)
    ensures WellFormed(KleeneNode(e))
    decreases P.Kleene(e), 0
  {
    NfaOfWellFormed(e);
    KleeneWellFormed(NfaOf(e));
  }

  lemma {:induction false} OptionNodeWellFormed(e: P.Regex)
    ensures WellFormed(OptionNode(e))
    decreases P.Option(e), 0
  {
    NfaOfWellFormed(e);
    OptionalWellFormed(NfaOf(e));
  }

  lemma {:induction false} PlusNodeWellFormed(e: P.Regex)
    ensures WellFormed(PlusNode(e))
    decreases P.Plus(e), 0
  {
    NfaOfWellFormed(e);
    PlusWellFormed(NfaOf(e));
  }

  lemma {:induction false} BoundedNodeWellFormed(e: P.Regex, min: nat, max: Option<nat>)
    ensures WellFormed(BoundedNode(e, min, max))
    decreases P.Bounded(e, min, max), 0
  {
    NfaOfWellFormed(e);
    BoundedWellFormed(NfaOf(e), min, max);
  }

  lemma PlusWellFormed(inner: Nfa)
    requires Valid(inner)
    ensures WellFormed(PlusOf(inner))
  {
    KleeneWellFormed(inner);
    ConcatWellFormed(inner, KleeneOf(inner));
  }

  /** `NFA::from(regex)`: a fragment constructor for each leaf, a
      combinator over the converted children for each inner node. */
  method FromRegex(re: P.Regex) returns (r: Nfa)
    ensures r == NfaOf(re)
    decreases re, 2
  {
    match re {
      case Empty => r := Empty();
      case Char(c) => r := CharNfa(c);
      case CharClass(s) => r := CharClassNfa(s);
      case NegatedCharClass(s) => r := NegatedCharClass(s);
      case Dot => r := Dot();
      case Concat(a, b) => r := FromConcat(a, b);
      case Union(a, b) => r := FromUnion(a, b);
      case Kleene(e) => r := FromKleene(e);
      case Option(e) => r := FromOption(e);
      case Plus(e) => r := FromPlus(e);
      case Bounded(e, min, max) => r := FromBounded(e, min, max);
    }
  }

  /** The arm of `NFA::from(regex)` for a `Concat` node. */
  method FromConcat(a: P.Regex, b: P.Regex) returns (r: Nfa)
    ensures r == ConcatNode(a, b)
    decreases P.Concat(a, b), 0
  {
    var x := FromRegex(a);
    var y := FromRegex(b);
    NfaOfWellFormed(a);
    NfaOfWellFormed(b);
    r := Concat(x, y);
  }

  /** The arm of `NFA::from(regex)` for a `Union` node. */
  method FromUnion(a: P.Regex, b: P.Regex) returns (r: Nfa)
    ensures r == UnionNode(a, b)
    decreases P.Union(a, b), 0
  {
    var x := FromRegex(a);
    var y := FromRegex(b);
    NfaOfWellFormed(a);
    NfaOfWellFormed(b);
    r := Union(x, y);
  }

  /** The arm of `NFA::from(regex)` for a `Kleene` node. */
  method FromKleene(e: P.Regex) returns (r: Nfa)
    ensures r == KleeneNode(e)
    decreases P.Kleene(e), 0
  {
    var x := FromRegex(e);
    NfaOfWellFormed(e);
    r := Kleene(x);
  }

  /** The arm of `NFA::from(regex)` for an `Option` node. */
  method FromOption(e: P.Regex) returns (r: Nfa)
    ensures r == OptionNode(e)
    decreases P.Option(e), 0
  {
    var x := FromRegex(e);
    NfaOfWellFormed(e);
    r := Optional(x);
  }

  /** The arm of `NFA::from(regex)` for a `Plus` node. */
  method FromPlus(e: P.Regex) returns (r: Nfa)
    ensures r == PlusNode(e)
    decreases P.Plus(e), 0
  {
    var x := FromRegex(e);
    NfaOfWellFormed(e);
    r := Plus(x);
  }

  /** The arm of `NFA::from(regex)` for a `Bounded` node. */
  method FromBounded(e: P.Regex, min: nat, max: Option<nat>) returns (r: Nfa)
    ensures r == BoundedNode(e, min, max)
    decreases P.Bounded(e, min, max), 0
  {
    var x := FromRegex(e);
    NfaOfWellFormed(e);
    r := Bounded(x, min, max);
  }
}
