/** The subset construction (`From<NFA> for DFA`, src/dfa.rs): every
    distinct non-empty ε-closed set of NFA states reached from the start
    becomes one DFA state, numbered densely in the order it is first met. */
module Dfas {
  import opened Base
  import opened Symbols
  import N = Nfas
  import opened Closures

  type DfaKey = (StateId, Symbol)

  /** `state_map`: the id given to each NFA subset. */
  type IdMap = map<set<StateId>, StateId>

  datatype Dfa = Dfa(
    states: set<StateId>,
    alphabet: set<char>,
    transitions: map<DfaKey, StateId>,
    start: StateId,
    finals: set<StateId>,
    actions: map<StateId, Action>)

  /** `DFA::default()`. */
  const Default: Dfa := Dfa({}, {}, map[], 0, {}, map[])

  // ---------------------------------------------------------------------
  // One input character
  // ---------------------------------------------------------------------

  /** Does an edge label consume `c`: `Char(c)` itself, or a class holding
      `c`. An ε-edge consumes nothing. */
  predicate Consumes(sym: Symbol, c: char)
  {
    match sym
    case Epsilon => false
    case Char(d) => d == c
    case CharClass(s) => c in s
  }

  /** The states one edge consuming `c` leads to from `q`. */
  function MoveFrom(t: N.Transitions, q: StateId, c: char): set<StateId>
  {
    set k, x | k in t && k.0 == q && Consumes(k.1, c) && x in t[k] :: x
  }

  /** The states one edge consuming `c` leads to from some state of `s`. */
  function MoveOf(t: N.Transitions, s: set<StateId>, c: char): set<StateId>
  {
    set q, x | q in s && x in MoveFrom(t, q, c) :: x
  }

  /** The targets of the class edges out of `q` that hold `c`. */
  function ClassTargetsOf(t: N.Transitions, q: StateId, c: char): set<StateId>
  {
    set k, x | k in t && k.0 == q && k.1.CharClass? && c in k.1.chars && x in t[k] :: x
  }

  /** `MoveFrom` is the `Char(c)` entry plus the class entries holding `c`. */
  lemma MoveFromSplit(t: N.Transitions, q: StateId, c: char)
    ensures MoveFrom(t, q, c) == N.Targets(t, q, Char(c)) + ClassTargetsOf(t, q, c)
  {
    forall x | x in MoveFrom(t, q, c) ensures x in N.Targets(t, q, Char(c)) + ClassTargetsOf(t, q, c) {
      var k :| k in t && k.0 == q && Consumes(k.1, c) && x in t[k];
      if k.1.Char? { assert k == (q, Char(c)); }
    }
    forall x | x in N.Targets(t, q, Char(c)) ensures x in MoveFrom(t, q, c) {
      assert (q, Char(c)) in t;
    }
  }

  lemma MoveOfAdd(t: N.Transitions, s: set<StateId>, q: StateId, c: char)
    ensures MoveOf(t, s + {q}, c) == MoveOf(t, s, c) + MoveFrom(t, q, c)
  {
  }

  /** The scan over all of `nfa.transitions` for class edges out of `q`. */
  method ClassTargets(t: N.Transitions, q: StateId, c: char) returns (r: set<StateId>)
    ensures r == ClassTargetsOf(t, q, c)
  {
    r := {};
    var keys := t.Keys;
    while keys != {}
      invariant keys <= t.Keys
      invariant r == set k, x | k in t && k !in keys && k.0 == q && k.1.CharClass? && c in k.1.chars && x in t[k] :: x
      decreases keys
    {
      var k :| k in keys;
      keys := keys - {k};
      if k.0 == q && k.1.CharClass? && c in k.1.chars {
        r := r + t[k];
      }
    }
  }

  /** The loop over `current_nfa_states` gathering the `c`-successors. */
  method Move(t: N.Transitions, current: set<StateId>, c: char) returns (next: set<StateId>)
    ensures next == MoveOf(t, current, c)
  {
    next := {};
    var rest := current;
    while rest != {}
      invariant rest <= current
      invariant next == MoveOf(t, current - rest, c)
      decreases rest
    {
      var q := MinOf(rest);
      MoveOfAdd(t, current - rest, q, c);
      assert current - (rest - {q}) == (current - rest) + {q};
      rest := rest - {q};
      next := next + N.Targets(t, q, Char(c));
      var classTargets := ClassTargets(t, q, c);
      next := next + classTargets;
      MoveFromSplit(t, q, c);
    }
    assert current - rest == current;
  }

  // ---------------------------------------------------------------------
  // Acceptance of a new DFA state
  // ---------------------------------------------------------------------

  /** The final NFA state of `s` with the smallest id, if any. */
  function LowestFinalOf(n: N.Nfa, s: set<StateId>): Option<StateId>
  {
    if s * n.finals == {} then None else Some(MinOf(s * n.finals))
  }

  /** What a new DFA state standing for `s` accepts: the action of the
      lowest final NFA state of `s`, and nothing when that state carries no
      action (even if another final state of `s` does). */
  function AcceptOf(n: N.Nfa, s: set<StateId>): Option<Action>
  {
    match LowestFinalOf(n, s)
    case None => None
    case Some(q) => if q in n.actions then Some(n.actions[q]) else None
  }

  /** Priority by id: the subset accepts with `a` exactly when its smallest
      final NFA state carries the action `a`. */
  lemma AcceptPriority(n: N.Nfa, s: set<StateId>, a: Action)
    ensures AcceptOf(n, s) == Some(a) <==>
      exists q :: q in s && q in n.finals && q in n.actions && n.actions[q] == a
        && forall p | p in s && p in n.finals :: q <= p
  {
    if AcceptOf(n, s) == Some(a) {
      var q := MinOf(s * n.finals);
      assert q in s && q in n.finals && q in n.actions && n.actions[q] == a;
      forall p | p in s && p in n.finals ensures q <= p {
        assert p in s * n.finals;
      }
    }
    if exists q :: q in s && q in n.finals && q in n.actions && n.actions[q] == a
        && forall p | p in s && p in n.finals :: q <= p
    {
      var q :| q in s && q in n.finals && q in n.actions && n.actions[q] == a
        && forall p | p in s && p in n.finals :: q <= p;
      assert q in s * n.finals;
      var m := MinOf(s * n.finals);
      assert m in s && m in n.finals;
      assert q == m;
      assert LowestFinalOf(n, s) == Some(q);
    }
  }

  /** The loop computing `highest_priority_state`: the smallest final state
      met while iterating the subset. */
  method LowestFinal(n: N.Nfa, s: set<StateId>) returns (h: Option<StateId>)
    ensures h == LowestFinalOf(n, s)
  {
    h := None;
    var rest := s;
    ghost var seen: set<StateId> := {};
    while rest != {}
      invariant rest <= s && seen == s - rest
      invariant h.None? <==> seen * n.finals == {}
      invariant h.Some? ==> h.value in seen * n.finals
      invariant h.Some? ==> forall p | p in seen * n.finals :: h.value <= p
      decreases rest
    {
      var q := MinOf(rest);
      if q in n.finals {
        if h.None? || q < h.value {
          h := Some(q);
        }
      }
      assert (seen + {q}) * n.finals == seen * n.finals + ({q} * n.finals);
      seen := seen + {q};
      rest := rest - {q};
    }
    assert seen == s;
    if h.Some? {
      var m := MinOf(s * n.finals);
      assert h.value <= m && m <= h.value;
    }
  }

  // ---------------------------------------------------------------------
  // The subset construction
  // ---------------------------------------------------------------------

  /** Every state some edge enters. */
  function AllTargets(t: N.Transitions): set<StateId>
  {
    set k, x | k in t && x in t[k] :: x
  }

  /** The NFA states a subset can hold: the start and the edge targets. */
  function Universe(n: N.Nfa): set<StateId>
  {
    {n.start} + AllTargets(n.transitions)
  }

  /** The subset the construction pairs with `s` and `c`: the ε-closure of
      the `c`-successors of `s`. */
  function NextOf(t: N.Transitions, s: set<StateId>, c: char): set<StateId>
  {
    ClosureOf(t, MoveOf(t, s, c))
  }

  /** A closure adds only ε-targets. */
  lemma ClosureWithin(t: N.Transitions, s: set<StateId>)
    ensures ClosureOf(t, s) <= s + AllTargets(t)
  {
    ClosureOfIs(t, s);
    var u := s + AllTargets(t);
    forall q | q in u ensures N.Targets(t, q, Epsilon) <= u {
      forall x | x in N.Targets(t, q, Epsilon) ensures x in AllTargets(t) {
        assert (q, Epsilon) in t;
      }
    }
    assert EpsClosed(t, u);
  }

  /** Every subset met after the start lies in the universe. */
  lemma NextWithin(n: N.Nfa, s: set<StateId>, c: char)
    ensures NextOf(n.transitions, s, c) <= Universe(n)
  {
    var t := n.transitions;
    ClosureWithin(t, MoveOf(t, s, c));
    forall x | x in MoveOf(t, s, c) ensures x in AllTargets(t) {
      var q :| q in s && x in MoveFrom(t, q, c);
      var k :| k in t && k.0 == q && Consumes(k.1, c) && x in t[k];
    }
  }

  /** All subsets of `u`: the bound on the number of DFA states. */
  ghost function Subsets(u: set<StateId>): set<set<StateId>>
    decreases u
  {
    if u == {} then {{}}
    else
      var x := MinOf(u);
      var p := Subsets(u - {x});
      p + set s | s in p :: s + {x}
  }

  lemma {:induction false} InSubsets(u: set<StateId>, s: set<StateId>)
    requires s <= u
    ensures s in Subsets(u)
    decreases u
  {
    if u == {} {
      assert s == {};
    } else {
      var x := MinOf(u);
      InSubsets(u - {x}, s - {x});
      if x in s {
        assert s == (s - {x}) + {x};
      } else {
        assert s == s - {x};
      }
    }
  }

  /** `ids` (the crate's `state_map`) numbers the subsets densely: the
      subset found i-th has id i, and no other subset has an id. */
  ghost predicate Numbered(ids: IdMap, subsets: seq<set<StateId>>)
  {
    && (forall i | 0 <= i < |subsets| :: subsets[i] in ids && ids[subsets[i]] == i)
    && (forall s | s in ids :: ids[s] < |subsets| && subsets[ids[s]] == s)
  }

  /** Acceptance as `From<NFA>` assigns it: a state other than the start
      is final exactly when its subset accepts, and then carries that
      action; the start state never does. */
  ghost predicate Tagged(n: N.Nfa, dfa: Dfa, subsets: seq<set<StateId>>)
  {
    && (forall i :: i in dfa.finals <==> 1 <= i < |subsets| && AcceptOf(n, subsets[i]).Some?)
    && (forall i :: i in dfa.actions <==> i in dfa.finals)
    && (forall i | i in dfa.actions :: 1 <= i < |subsets| && AcceptOf(n, subsets[i]) == Some(dfa.actions[i]))
  }

  /** The transition of state `d` on `c` is as the construction demands:
      present exactly when the ε-closed `c`-successor subset is non-empty,
      and leading to that subset's id. */
  ghost predicate Recorded(n: N.Nfa, tr: map<DfaKey, StateId>, subsets: seq<set<StateId>>, d: nat, c: char)
    requires d < |subsets|
  {
    var next := NextOf(n.transitions, subsets[d], c);
    && ((d, Char(c)) in tr <==> next != {})
    && ((d, Char(c)) in tr ==>
          tr[(d, Char(c))] < |subsets| && subsets[tr[(d, Char(c))]] == next)
  }

  /** Subset `i` is the ε-closed `c`-successor of the subset `d` numbered
      before it, for a character `c` of the alphabet. */
  ghost predicate FoundFrom(n: N.Nfa, subsets: seq<set<StateId>>, i: nat, d: nat, c: char)
  {
    d < i < |subsets| && c in n.alphabet && subsets[i] == NextOf(n.transitions, subsets[d], c)
  }

  /** Subset `i` was met while expanding an earlier subset. */
  ghost predicate Found(n: N.Nfa, subsets: seq<set<StateId>>, i: nat)
  {
    exists d: nat, c: char :: FoundFrom(n, subsets, i, d, c)
  }

  /** Every subset after the start one was met while expanding an earlier
      one: the construction numbers only subsets it reaches. */
  ghost predicate Discovered(n: N.Nfa, subsets: seq<set<StateId>>)
  {
    forall i | 1 <= i < |subsets| :: Found(n, subsets, i)
  }

  /** Appending the successor of a numbered subset keeps every subset
      discovered. */
  lemma DiscoveredAdd(n: N.Nfa, subsets: seq<set<StateId>>, d: nat, c: char)
    requires Discovered(n, subsets) && d < |subsets| && c in n.alphabet
    ensures Discovered(n, subsets + [NextOf(n.transitions, subsets[d], c)])
  {
    var more := subsets + [NextOf(n.transitions, subsets[d], c)];
    forall i | 1 <= i < |more| ensures Found(n, more, i) {
      if i < |subsets| {
        assert Found(n, subsets, i);
        var e: nat, b: char :| FoundFrom(n, subsets, i, e, b);
        assert more[i] == subsets[i] && more[e] == subsets[e];
        assert FoundFrom(n, more, i, e, b);
      } else {
        assert more[d] == subsets[d];
        assert FoundFrom(n, more, i, d, c);
      }
    }
  }

  /** The facts the construction keeps about its states. */
  ghost predicate Building(n: N.Nfa, dfa: Dfa, ids: IdMap, counter: nat,
                           subsets: seq<set<StateId>>)
  {
    && dfa.alphabet == n.alphabet && dfa.start == 0
    && 1 <= |subsets| == counter
    && subsets[0] == ClosureOf(n.transitions, {n.start})
    && dfa.states == Range(counter)
    && Numbered(ids, subsets)
    && ids.Keys <= Subsets(Universe(n))
    && (forall i | 0 <= i < |subsets| :: subsets[i] != {} && subsets[i] <= Universe(n)
                                      && EpsClosed(n.transitions, subsets[i]))
    && Tagged(n, dfa, subsets)
    && Discovered(n, subsets)
  }

  /** The transitions recorded so far: every row below `done`, and the
      characters `syms` of row `done`. */
  ghost predicate RowsDone(n: N.Nfa, tr: map<DfaKey, StateId>, subsets: seq<set<StateId>>, done: nat, syms: set<char>)
  {
    && done <= |subsets|
    && (forall key | key in tr ::
          && key.1.Char? && key.1.c in n.alphabet && key.0 < |subsets|
          && (key.0 < done || (key.0 == done && key.1.c in syms)))
    && (forall d, c | 0 <= d < done && c in n.alphabet :: Recorded(n, tr, subsets, d, c))
    && (forall c | c in syms :: done < |subsets| && Recorded(n, tr, subsets, done, c))
  }

  /** Growing the subset list keeps every recorded row. */
  lemma RowsGrow(n: N.Nfa, tr: map<DfaKey, StateId>, subsets: seq<set<StateId>>, s: set<StateId>,
                 done: nat, syms: set<char>)
    requires RowsDone(n, tr, subsets, done, syms)
    ensures RowsDone(n, tr, subsets + [s], done, syms)
  {
    var more := subsets + [s];
    forall d, c | 0 <= d < |subsets| && Recorded(n, tr, subsets, d, c)
      ensures Recorded(n, tr, more, d, c)
    {
      assert more[d] == subsets[d];
      if (d, Char(c)) in tr {
        assert more[tr[(d, Char(c))]] == subsets[tr[(d, Char(c))]];
      }
    }
  }

  /** Recording the transition on `c` of row `done`. */
  lemma RowsExtend(n: N.Nfa, tr: map<DfaKey, StateId>, subsets: seq<set<StateId>>, done: nat,
                   syms: set<char>,
                   c: char, target: StateId)
    requires RowsDone(n, tr, subsets, done, syms) && done < |subsets|
    requires c in n.alphabet && c !in syms
    requires NextOf(n.transitions, subsets[done], c) != {}
    requires target < |subsets| && subsets[target] == NextOf(n.transitions, subsets[done], c)
    ensures RowsDone(n, tr[(done, Char(c)) := target], subsets, done, syms + {c})
  {
    var tr' := tr[(done, Char(c)) := target];
    forall d, e | 0 <= d < done && e in n.alphabet ensures Recorded(n, tr', subsets, d, e) {
      assert Recorded(n, tr, subsets, d, e);
      assert (d, Char(e)) != (done, Char(c));
    }
    forall e | e in syms + {c} ensures Recorded(n, tr', subsets, done, e) {
      if e != c {
        assert Recorded(n, tr, subsets, done, e);
      }
    }
  }

  /** No transition is recorded when the successor subset is empty. */
  lemma RowsExtendEmpty(n: N.Nfa, tr: map<DfaKey, StateId>, subsets: seq<set<StateId>>, done: nat,
                        syms: set<char>, c: char)
    requires RowsDone(n, tr, subsets, done, syms) && done < |subsets|
    requires c !in syms && NextOf(n.transitions, subsets[done], c) == {}
    ensures RowsDone(n, tr, subsets, done, syms + {c})
  {
    assert (done, Char(c)) !in tr;
  }

  /** A row is complete once every character of the alphabet is recorded. */
  lemma NextRow(n: N.Nfa, tr: map<DfaKey, StateId>, subsets: seq<set<StateId>>, done: nat)
    requires RowsDone(n, tr, subsets, done, n.alphabet) && done < |subsets|
    ensures RowsDone(n, tr, subsets, done + 1, {})
  {
  }

  /** A fresh id for a subset not numbered yet keeps the numbering dense. */
  lemma NumberedAdd(ids: IdMap, subsets: seq<set<StateId>>, next: set<StateId>)
    requires Numbered(ids, subsets) && next !in ids
    ensures Numbered(ids[next := |subsets|], subsets + [next])
  {
    var ids', more := ids[next := |subsets|], subsets + [next];
    forall i | 0 <= i < |more| ensures more[i] in ids' && ids'[more[i]] == i {
      if i < |subsets| {
        assert more[i] == subsets[i] && subsets[i] != next;
      }
    }
  }

  /** Tagging the new state by the acceptance of its subset. */
  lemma TaggedAdd(n: N.Nfa, dfa: Dfa, subsets: seq<set<StateId>>, next: set<StateId>, dfa': Dfa)
    requires Tagged(n, dfa, subsets) && |subsets| >= 1
    requires AcceptOf(n, next).None? ==> dfa'.finals == dfa.finals && dfa'.actions == dfa.actions
    requires AcceptOf(n, next).Some? ==>
      && dfa'.finals == dfa.finals + {|subsets|}
      && dfa'.actions == dfa.actions[|subsets| := AcceptOf(n, next).value]
    ensures Tagged(n, dfa', subsets + [next])
  {
    var more := subsets + [next];
    forall i | 0 <= i < |subsets| ensures more[i] == subsets[i] { }
  }

  /** The facts `Building` keeps do not involve the transitions. */
  lemma BuildingTransitions(n: N.Nfa, dfa: Dfa, ids: IdMap, counter: nat,
                            subsets: seq<set<StateId>>, tr: map<DfaKey, StateId>)
    requires Building(n, dfa, ids, counter, subsets)
    ensures Building(n, dfa.(transitions := tr), ids, counter, subsets)
  {
  }

  /** The ε-closed successor subset, as `ExpandOn` computes it. */
  method Successor(n: N.Nfa, current: set<StateId>, c: char) returns (next: set<StateId>)
    ensures next == NextOf(n.transitions, current, c)
  {
    var moved := Move(n.transitions, current, c);
    next := EpsilonClosure(n, moved);
  }

  /** A successor subset may be added as a new DFA state. */
  lemma NextFacts(n: N.Nfa, s: set<StateId>, c: char)
    ensures NextOf(n.transitions, s, c) <= Universe(n)
    ensures EpsClosed(n.transitions, NextOf(n.transitions, s, c))
  {
    NextWithin(n, s, c);
    ClosureOfIs(n.transitions, MoveOf(n.transitions, s, c));
  }

  /** Adding a subset met for the first time, with a fresh id and the
      acceptance of its subset, keeps the construction's facts. */
  lemma BuildingAdd(n: N.Nfa, dfa: Dfa, ids: IdMap, counter: nat,
                    subsets: seq<set<StateId>>, next: set<StateId>, dfa': Dfa, d: nat, c: char)
    requires Building(n, dfa, ids, counter, subsets)
    requires d < |subsets| && c in n.alphabet && next == NextOf(n.transitions, subsets[d], c)
    requires next != {} && next !in ids && next <= Universe(n) && EpsClosed(n.transitions, next)
    requires dfa'.alphabet == dfa.alphabet && dfa'.start == dfa.start
    requires dfa'.states == dfa.states + {counter}
    requires AcceptOf(n, next).None? ==> dfa'.finals == dfa.finals && dfa'.actions == dfa.actions
    requires AcceptOf(n, next).Some? ==>
      && dfa'.finals == dfa.finals + {counter}
      && dfa'.actions == dfa.actions[counter := AcceptOf(n, next).value]
    ensures Building(n, dfa', ids[next := counter], counter + 1, subsets + [next])
  {
    var more := subsets + [next];
    InSubsets(Universe(n), next);
    NumberedAdd(ids, subsets, next);
    TaggedAdd(n, dfa, subsets, next, dfa');
    DiscoveredAdd(n, subsets, d, c);
    forall i | 0 <= i < |more|
      ensures more[i] != {} && more[i] <= Universe(n) && EpsClosed(n.transitions, more[i])
    {
      if i < |subsets| { assert more[i] == subsets[i]; }
    }
  }

  /** The facts the construction keeps while row `d`, the subset
      `current`, is expanded, with the characters `syms` done so far:
      `Building`, `RowsDone`, the queue holding the subsets after `d`, and
      growth only, from the numbering `ids0`/`subsets0` the row began with.
      `depth` counts the unfoldings that lead to the facts: the methods
      state the predicate at depth 3, which the verifier leaves folded, and
      the lemmas below unfold it with `UnfoldExpanding`. */
  ghost predicate Expanding(n: N.Nfa, dfa: Dfa, ids: IdMap, counter: nat, queue: seq<set<StateId>>,
                            subsets: seq<set<StateId>>, d: nat, current: set<StateId>, syms: set<char>,
                            ids0: IdMap, subsets0: seq<set<StateId>>, depth: nat)
    decreases depth
  {
    if depth == 0 then
      && Building(n, dfa, ids, counter, subsets) && RowsDone(n, dfa.transitions, subsets, d, syms)
      && d < counter && current == subsets[d] && queue == subsets[d + 1..]
      && subsets0 <= subsets
      && (|subsets| == |subsets0| ==> ids == ids0)
      && (|subsets| > |subsets0| ==> subsets[|subsets0|] !in ids0)
    else Expanding(n, dfa, ids, counter, queue, subsets, d, current, syms, ids0, subsets0, depth - 1)
  }

  lemma UnfoldExpanding(n: N.Nfa, dfa: Dfa, ids: IdMap, counter: nat, queue: seq<set<StateId>>,
                        subsets: seq<set<StateId>>, d: nat, current: set<StateId>, syms: set<char>,
                        ids0: IdMap, subsets0: seq<set<StateId>>)
    ensures Expanding(n, dfa, ids, counter, queue, subsets, d, current, syms, ids0, subsets0, 3) ==
            Expanding(n, dfa, ids, counter, queue, subsets, d, current, syms, ids0, subsets0, 0)
  {
    assert Expanding(n, dfa, ids, counter, queue, subsets, d, current, syms, ids0, subsets0, 3) ==
           Expanding(n, dfa, ids, counter, queue, subsets, d, current, syms, ids0, subsets0, 2);
    assert Expanding(n, dfa, ids, counter, queue, subsets, d, current, syms, ids0, subsets0, 2) ==
           Expanding(n, dfa, ids, counter, queue, subsets, d, current, syms, ids0, subsets0, 1);
  }

  /** The facts between rows: `Building`, every row before `done`
      recorded, and the queue holding the subsets from `done` on. `depth`
      plays the part it plays in `Expanding`. */
  ghost predicate Queued(n: N.Nfa, dfa: Dfa, ids: IdMap, counter: nat, queue: seq<set<StateId>>,
                         subsets: seq<set<StateId>>, done: nat, depth: nat)
    decreases depth
  {
    if depth == 0 then
      && Building(n, dfa, ids, counter, subsets) && RowsDone(n, dfa.transitions, subsets, done, {})
      && queue == subsets[done..]
    else Queued(n, dfa, ids, counter, queue, subsets, done, depth - 1)
  }

  lemma UnfoldQueued(n: N.Nfa, dfa: Dfa, ids: IdMap, counter: nat, queue: seq<set<StateId>>,
                     subsets: seq<set<StateId>>, done: nat)
    ensures Queued(n, dfa, ids, counter, queue, subsets, done, 3) == Queued(n, dfa, ids, counter, queue, subsets, done, 0)
  {
    assert Queued(n, dfa, ids, counter, queue, subsets, done, 3) == Queued(n, dfa, ids, counter, queue, subsets, done, 2);
    assert Queued(n, dfa, ids, counter, queue, subsets, done, 2) == Queued(n, dfa, ids, counter, queue, subsets, done, 1);
  }

  /** An empty successor subset records nothing: `c` leaves the
      characters `rest` still to do. */
  lemma SkipChar(n: N.Nfa, dfa: Dfa, ids: IdMap, counter: nat, queue: seq<set<StateId>>,
                 subsets: seq<set<StateId>>, d: nat, current: set<StateId>, rest: set<char>,
                 ids0: IdMap, subsets0: seq<set<StateId>>, c: char)
    requires Expanding(n, dfa, ids, counter, queue, subsets, d, current, n.alphabet - rest, ids0, subsets0, 3)
    requires c in rest && rest <= n.alphabet && NextOf(n.transitions, current, c) == {}
    ensures Expanding(n, dfa, ids, counter, queue, subsets, d, current, n.alphabet - (rest - {c}), ids0, subsets0, 3)
  {
    var syms := n.alphabet - rest;
    assert syms + {c} == n.alphabet - (rest - {c});
    UnfoldExpanding(n, dfa, ids, counter, queue, subsets, d, current, syms, ids0, subsets0);
    UnfoldExpanding(n, dfa, ids, counter, queue, subsets, d, current, syms + {c}, ids0, subsets0);
    RowsExtendEmpty(n, dfa.transitions, subsets, d, syms, c);
  }

  /** Recording the transition to the id of a numbered successor subset. */
  lemma RecordChar(n: N.Nfa, dfa: Dfa, ids: IdMap, counter: nat, queue: seq<set<StateId>>,
                   subsets: seq<set<StateId>>, d: nat, current: set<StateId>, rest: set<char>,
                   ids0: IdMap, subsets0: seq<set<StateId>>, c: char)
    requires Expanding(n, dfa, ids, counter, queue, subsets, d, current, n.alphabet - rest, ids0, subsets0, 3)
    requires c in rest && rest <= n.alphabet && NextOf(n.transitions, current, c) in ids
    ensures Expanding(n, dfa.(transitions := dfa.transitions[(d, Char(c)) := ids[NextOf(n.transitions, current, c)]]),
                      ids, counter, queue, subsets, d, current, n.alphabet - (rest - {c}), ids0, subsets0, 3)
  {
    var syms := n.alphabet - rest;
    assert syms + {c} == n.alphabet - (rest - {c});
    var next := NextOf(n.transitions, current, c);
    var dfa' := dfa.(transitions := dfa.transitions[(d, Char(c)) := ids[next]]);
    UnfoldExpanding(n, dfa, ids, counter, queue, subsets, d, current, syms, ids0, subsets0);
    UnfoldExpanding(n, dfa', ids, counter, queue, subsets, d, current, syms + {c}, ids0, subsets0);
    assert subsets[ids[next]] == next;
    RowsExtend(n, dfa.transitions, subsets, d, syms, c, ids[next]);
    BuildingTransitions(n, dfa, ids, counter, subsets, dfa'.transitions);
  }

  /** Numbering and queueing a subset met for the first time keeps the
      facts of the row. */
  lemma AddKeeps(n: N.Nfa, dfa: Dfa, ids: IdMap, counter: nat, queue: seq<set<StateId>>,
                 subsets: seq<set<StateId>>, d: nat, current: set<StateId>, syms: set<char>,
                 ids0: IdMap, subsets0: seq<set<StateId>>, next: set<StateId>, dfa': Dfa, c: char)
    requires Expanding(n, dfa, ids, counter, queue, subsets, d, current, syms, ids0, subsets0, 3)
    requires c in n.alphabet && next == NextOf(n.transitions, current, c)
    requires next != {} && next !in ids && next <= Universe(n) && EpsClosed(n.transitions, next)
    requires dfa'.alphabet == dfa.alphabet && dfa'.start == dfa.start && dfa'.transitions == dfa.transitions
    requires dfa'.states == dfa.states + {counter}
    requires AcceptOf(n, next).None? ==> dfa'.finals == dfa.finals && dfa'.actions == dfa.actions
    requires AcceptOf(n, next).Some? ==>
      && dfa'.finals == dfa.finals + {counter}
      && dfa'.actions == dfa.actions[counter := AcceptOf(n, next).value]
    ensures Expanding(n, dfa', ids[next := counter], counter + 1, queue + [next], subsets + [next],
                      d, current, syms, ids0, subsets0, 3)
  {
    UnfoldExpanding(n, dfa, ids, counter, queue, subsets, d, current, syms, ids0, subsets0);
    UnfoldExpanding(n, dfa', ids[next := counter], counter + 1, queue + [next], subsets + [next],
                    d, current, syms, ids0, subsets0);
    BuildingAdd(n, dfa, ids, counter, subsets, next, dfa', d, c);
    RowsGrow(n, dfa.transitions, subsets, next, d, syms);
    AppendKeeps(subsets, next, d, subsets0);
    if |subsets| == |subsets0| {
      assert subsets == subsets0;
    }
  }

  /** Appending to a sequence keeps its entries, its prefixes and the
      suffix after `d` followed by the new entry. */
  lemma AppendKeeps<T>(s: seq<T>, x: T, d: nat, p: seq<T>)
    requires d < |s| && p <= s
    ensures (s + [x])[d] == s[d] && s[d + 1..] + [x] == (s + [x])[d + 1..]
    ensures p <= s + [x] && (|p| < |s| ==> (s + [x])[|p|] == s[|p|])
  {
  }

  /** The `None` arm of the `state_map` lookup: the next id goes to a
      subset met for the first time. It is final, with the action of the
      subset's lowest final NFA state, when that state has an action, and
      the subset is queued. */
  method AddSubset(n: N.Nfa, dfa: Dfa, ids: IdMap, counter: nat, queue: seq<set<StateId>>, next: set<StateId>)
    returns (dfa': Dfa, ids': IdMap, counter': nat, queue': seq<set<StateId>>, id: StateId)
    ensures id == counter && counter' == counter + 1 && ids' == ids[next := id] && queue' == queue + [next]
    ensures dfa'.alphabet == dfa.alphabet && dfa'.start == dfa.start && dfa'.transitions == dfa.transitions
    ensures dfa'.states == dfa.states + {id}
    ensures AcceptOf(n, next).None? ==> dfa'.finals == dfa.finals && dfa'.actions == dfa.actions
    ensures AcceptOf(n, next).Some? ==>
      && dfa'.finals == dfa.finals + {id}
      && dfa'.actions == dfa.actions[id := AcceptOf(n, next).value]
  {
    id := counter;
    counter' := counter + 1;
    ids' := ids[next := id];
    dfa' := dfa.(states := dfa.states + {id});
    var lowest := LowestFinal(n, next);
    if lowest.Some? && lowest.value in n.actions {
      dfa' := dfa'.(finals := dfa'.finals + {id}, actions := dfa'.actions[id := n.actions[lowest.value]]);
    }
    queue' := queue + [next];
  }

  /** One character of the alphabet for the subset `current` with id `d`:
      the ε-closure of its successors, skipped when empty, otherwise looked
      up in `state_map` (or added) and recorded as the transition. */
  method ExpandOn(n: N.Nfa, dfa: Dfa, ids: IdMap, counter: nat, queue: seq<set<StateId>>,
                  ghost subsets: seq<set<StateId>>, d: StateId, current: set<StateId>, c: char,
                  ghost rest: set<char>, ghost ids0: IdMap, ghost subsets0: seq<set<StateId>>)
    returns (dfa': Dfa, ids': IdMap, counter': nat, queue': seq<set<StateId>>, ghost subsets': seq<set<StateId>>)
    requires Expanding(n, dfa, ids, counter, queue, subsets, d, current, n.alphabet - rest, ids0, subsets0, 3)
    requires c in rest && rest <= n.alphabet
    ensures Expanding(n, dfa', ids', counter', queue', subsets', d, current, n.alphabet - (rest - {c}), ids0, subsets0, 3)
  {
    var next := Successor(n, current, c);
    dfa', ids', counter', queue', subsets' := dfa, ids, counter, queue, subsets;
    if next == {} {
      SkipChar(n, dfa, ids, counter, queue, subsets, d, current, rest, ids0, subsets0, c);
      return;
    }
    var target;
    if next in ids {
      target := ids[next];
    } else {
      NextFacts(n, current, c);
      dfa', ids', counter', queue', target := AddSubset(n, dfa, ids, counter, queue, next);
      subsets' := subsets + [next];
      AddKeeps(n, dfa, ids, counter, queue, subsets, d, current, n.alphabet - rest, ids0, subsets0, next, dfa', c);
    }
    RecordChar(n, dfa', ids', counter', queue', subsets', d, current, rest, ids0, subsets0, c);
    dfa' := dfa'.(transitions := dfa'.transitions[(d, Char(c)) := target]);
  }

  /** The loop over the alphabet, in ascending order, for one dequeued
      subset. */
  method ExpandState(n: N.Nfa, dfa: Dfa, ids: IdMap, counter: nat, queue: seq<set<StateId>>,
                     ghost subsets: seq<set<StateId>>, d: StateId, current: set<StateId>)
    returns (dfa': Dfa, ids': IdMap, counter': nat, queue': seq<set<StateId>>, ghost subsets': seq<set<StateId>>)
    requires Expanding(n, dfa, ids, counter, queue, subsets, d, current, {}, ids, subsets, 3)
    requires dfa.alphabet == n.alphabet
    ensures Expanding(n, dfa', ids', counter', queue', subsets', d, current, n.alphabet, ids, subsets, 3)
  {
    dfa', ids', counter', queue', subsets' := dfa, ids, counter, queue, subsets;
    var rest := dfa.alphabet;
    assert n.alphabet - rest == {};
    while rest != {}
      invariant rest <= n.alphabet
      invariant Expanding(n, dfa', ids', counter', queue', subsets', d, current, n.alphabet - rest, ids, subsets, 3)
      decreases rest
    {
      var c := MinChar(rest);
      dfa', ids', counter', queue', subsets' := ExpandOn(n, dfa', ids', counter', queue', subsets', d, current, c, rest, ids, subsets);
      rest := rest - {c};
    }
    assert n.alphabet - rest == n.alphabet;
  }

  /** The start state alone: id 0 for the ε-closure of the NFA start. */
  lemma StartBuilding(n: N.Nfa, startSet: set<StateId>)
    requires startSet == ClosureOf(n.transitions, {n.start})
    ensures Queued(n, Default.(alphabet := n.alphabet, states := {0}, start := 0),
                   map[startSet := 0], 1, [startSet], [startSet], 0, 3)
  {
    UnfoldQueued(n, Default.(alphabet := n.alphabet, states := {0}, start := 0),
                 map[startSet := 0], 1, [startSet], [startSet], 0);
    ClosureOfIs(n.transitions, {n.start});
    ClosureWithin(n.transitions, {n.start});
    InSubsets(Universe(n), startSet);
    assert Range(1) == {0};
  }

  /** Dequeuing the subset of row `done`. */
  lemma BeginRow(n: N.Nfa, dfa: Dfa, ids: IdMap, counter: nat, queue: seq<set<StateId>>,
                 subsets: seq<set<StateId>>, done: nat)
    requires Queued(n, dfa, ids, counter, queue, subsets, done, 3) && queue != []
    ensures queue[0] in ids && ids[queue[0]] == done && |queue| == |subsets| - done
    ensures dfa.alphabet == n.alphabet
    ensures Expanding(n, dfa, ids, counter, queue[1..], subsets, done, queue[0], {}, ids, subsets, 3)
  {
    UnfoldQueued(n, dfa, ids, counter, queue, subsets, done);
    UnfoldExpanding(n, dfa, ids, counter, queue[1..], subsets, done, queue[0], {}, ids, subsets);
    assert queue[0] == subsets[done];
  }

  /** A subset numbered during an expansion leaves fewer subsets of the
      universe unnumbered. */
  lemma FewerLeft(n: N.Nfa, ids: IdMap, subsets: seq<set<StateId>>, ids': IdMap, subsets': seq<set<StateId>>)
    requires Numbered(ids, subsets) && Numbered(ids', subsets') && ids'.Keys <= Subsets(Universe(n))
    requires subsets < subsets' && subsets'[|subsets|] !in ids
    ensures Subsets(Universe(n)) - ids'.Keys < Subsets(Universe(n)) - ids.Keys
  {
    var all := Subsets(Universe(n));
    forall s | s in ids ensures s in ids' {
      assert subsets'[ids[s]] == subsets[ids[s]];
    }
    assert subsets'[|subsets|] in all - ids.Keys;
  }

  /** A row is complete once every character of the alphabet is done;
      either the numbering grew, or nothing was queued. */
  lemma EndRow(n: N.Nfa, dfa: Dfa, ids: IdMap, counter: nat, queue: seq<set<StateId>>,
               subsets: seq<set<StateId>>, d: nat, current: set<StateId>, ids0: IdMap, subsets0: seq<set<StateId>>)
    requires Expanding(n, dfa, ids, counter, queue, subsets, d, current, n.alphabet, ids0, subsets0, 3)
    requires Numbered(ids0, subsets0)
    ensures Queued(n, dfa, ids, counter, queue, subsets, d + 1, 3)
    ensures || Subsets(Universe(n)) - ids.Keys < Subsets(Universe(n)) - ids0.Keys
            || (ids == ids0 && |queue| == |subsets0| - d - 1)
  {
    UnfoldExpanding(n, dfa, ids, counter, queue, subsets, d, current, n.alphabet, ids0, subsets0);
    UnfoldQueued(n, dfa, ids, counter, queue, subsets, d + 1);
    NextRow(n, dfa.transitions, subsets, d);
    if |subsets| > |subsets0| {
      FewerLeft(n, ids0, subsets0, ids, subsets);
    }
  }

  /** What `From<NFA>` builds, with `subsets[i]` the NFA subset that DFA
      state i stands for: the alphabet of the NFA; states 0..|subsets|-1,
      with 0 the ε-closure of the NFA start; pairwise distinct, non-empty,
      ε-closed subsets; acceptance by `Tagged`; exactly the transitions
      `Recorded` demands, all on characters of the alphabet; and only
      subsets met while expanding an earlier one (`Discovered`). */
  ghost predicate IsSubsetAutomaton(n: N.Nfa, dfa: Dfa, subsets: seq<set<StateId>>)
  {
    && dfa.alphabet == n.alphabet && dfa.start == 0
    && |subsets| >= 1 && subsets[0] == ClosureOf(n.transitions, {n.start})
    && dfa.states == Range(|subsets|)
    && (forall i, j | 0 <= i < j < |subsets| :: subsets[i] != subsets[j])
    && (forall i | 0 <= i < |subsets| :: subsets[i] != {} && EpsClosed(n.transitions, subsets[i]))
    && Tagged(n, dfa, subsets)
    && (forall key | key in dfa.transitions :: key.1.Char? && key.1.c in n.alphabet && key.0 < |subsets|)
    && (forall d, c | 0 <= d < |subsets| && c in n.alphabet :: Recorded(n, dfa.transitions, subsets, d, c))
    && Discovered(n, subsets)
  }

  /** Once every numbered subset is expanded, the automaton is the subset
      automaton of the NFA. */
  lemma Finished(n: N.Nfa, dfa: Dfa, ids: IdMap, counter: nat, subsets: seq<set<StateId>>, done: nat)
    requires Queued(n, dfa, ids, counter, [], subsets, done, 3)
    ensures IsSubsetAutomaton(n, dfa, subsets)
  {
    UnfoldQueued(n, dfa, ids, counter, [], subsets, done);
    forall i, j | 0 <= i < j < |subsets| ensures subsets[i] != subsets[j] {
      assert ids[subsets[i]] == i && ids[subsets[j]] == j;
    }
  }

  /** `From<NFA> for DFA`: dequeue subsets in the order they were numbered
      and expand each on every character of the alphabet. The ghost result
      lists the NFA subset that each DFA id stands for. */
  method FromNfa(n: N.Nfa) returns (dfa: Dfa, ghost subsets: seq<set<StateId>>)
    ensures IsSubsetAutomaton(n, dfa, subsets)
  {
    dfa := Default.(alphabet := n.alphabet);
    var startSet := EpsilonClosure(n, {n.start});
    var ids := map[startSet := 0];
    var counter := 0;
    dfa := dfa.(states := dfa.states + {counter}, start := counter);
    counter := counter + 1;
    var queue := [startSet];
    subsets := [startSet];
    ghost var done := 0;
    StartBuilding(n, startSet);
    while queue != []
      invariant Queued(n, dfa, ids, counter, queue, subsets, done, 3)
      decreases Subsets(Universe(n)) - ids.Keys, |queue|
    {
      BeginRow(n, dfa, ids, counter, queue, subsets, done);
      var current := queue[0];
      queue := queue[1..];
      var d := ids[current];
      ghost var (ids0, subsets0) := (ids, subsets);
      dfa, ids, counter, queue, subsets := ExpandState(n, dfa, ids, counter, queue, subsets, d, current);
      EndRow(n, dfa, ids, counter, queue, subsets, d, current, ids0, subsets0);
      done := done + 1;
    }
    Finished(n, dfa, ids, counter, subsets, done);
  }

  /** `minimize`: a copy of the automaton, unchanged. */
  function Minimize(dfa: Dfa): (r: Dfa)
    ensures r == dfa
  {
    dfa
  }

  // ---------------------------------------------------------------------
  // Reading input
  // ---------------------------------------------------------------------

  /** One step of the scanner: stuck on a character outside the alphabet or
      without a transition. */
  function Step(dfa: Dfa, q: StateId, c: char): Option<StateId>
  {
    if c in dfa.alphabet && (q, Char(c)) in dfa.transitions then Some(dfa.transitions[(q, Char(c))])
    else None
  }

  /** The state reached by reading `w` from the start, if the scanner does
      not get stuck. */
  function Run(dfa: Dfa, w: string): Option<StateId>
  {
    if w == [] then Some(dfa.start)
    else
      match Run(dfa, w[..|w| - 1])
      case None => None
      case Some(q) => Step(dfa, q, w[|w| - 1])
  }

  /** The ε-closed set of NFA states reached by reading `w`. */
  ghost function SubsetRun(n: N.Nfa, w: string): set<StateId>
  {
    if w == [] then ClosureOf(n.transitions, {n.start})
    else NextOf(n.transitions, SubsetRun(n, w[..|w| - 1]), w[|w| - 1])
  }

  lemma ClosureOfEmpty(t: N.Transitions)
    ensures ClosureOf(t, {}) == {}
  {
    ClosureOfIs(t, {});
    assert EpsClosed(t, {});
  }

  /** The subset automaton simulates the NFA: on a word over the alphabet,
      the DFA gets stuck exactly when no NFA state is reachable, and
      otherwise reaches the state standing for the reachable NFA states. */
  lemma {:induction false} RunTracksSubsets(n: N.Nfa, dfa: Dfa, subsets: seq<set<StateId>>, w: string)
    requires IsSubsetAutomaton(n, dfa, subsets)
    requires forall i | 0 <= i < |w| :: w[i] in n.alphabet
    ensures Run(dfa, w).Some? <==> SubsetRun(n, w) != {}
    ensures Run(dfa, w).Some? ==> Run(dfa, w).value < |subsets| && subsets[Run(dfa, w).value] == SubsetRun(n, w)
  {
    if w != [] {
      var p, c := w[..|w| - 1], w[|w| - 1];
      RunTracksSubsets(n, dfa, subsets, p);
      if Run(dfa, p).None? {
        assert p == w[..|w| - 1];
        assert MoveOf(n.transitions, {}, c) == {};
        ClosureOfEmpty(n.transitions);
      } else {
        assert Recorded(n, dfa.transitions, subsets, Run(dfa, p).value, c);
      }
    }
  }

  /** Every subset of the construction is the set of NFA states some word
      over the alphabet reaches. */
  lemma {:induction false} SubsetReached(n: N.Nfa, dfa: Dfa, subsets: seq<set<StateId>>, i: nat)
    returns (w: string)
    requires IsSubsetAutomaton(n, dfa, subsets) && i < |subsets|
    ensures forall k | 0 <= k < |w| :: w[k] in n.alphabet
    ensures SubsetRun(n, w) == subsets[i]
    decreases i
  {
    if i == 0 {
      w := [];
    } else {
      assert Found(n, subsets, i);
      var d: nat, c: char :| FoundFrom(n, subsets, i, d, c);
      var u := SubsetReached(n, dfa, subsets, d);
      w := u + [c];
      assert w[..|w| - 1] == u;
    }
  }

  /** No state of the subset automaton is unreachable: each is where the
      scanner ends up after some word over the alphabet. */
  lemma StatesReachable(n: N.Nfa, dfa: Dfa, subsets: seq<set<StateId>>, q: StateId)
    requires IsSubsetAutomaton(n, dfa, subsets) && q in dfa.states
    ensures exists w: string :: Run(dfa, w) == Some(q)
  {
    assert q in Range(|subsets|);
    var w := SubsetReached(n, dfa, subsets, q);
    RunTracksSubsets(n, dfa, subsets, w);
    var r := Run(dfa, w).value;
    assert subsets[r] == subsets[q];
  }

  /** A non-empty word that leads to a final state. */
  predicate Accepts(dfa: Dfa, w: string)
  {
    w != [] && Run(dfa, w).Some? && Run(dfa, w).value in dfa.finals
  }

  /** The length of the longest accepted prefix of `input` no longer than
      `k`, or 0 when there is none. */
  function LongestUpTo(dfa: Dfa, input: string, k: nat): (r: nat)
    requires k <= |input|
    ensures r <= k
    ensures r > 0 ==> Accepts(dfa, input[..r])
    ensures forall j | r < j <= k :: !Accepts(dfa, input[..j])
  {
    if k == 0 then 0
    else if Accepts(dfa, input[..k]) then k
    else LongestUpTo(dfa, input, k - 1)
  }

  /** Once stuck, the scanner stays stuck. */
  lemma {:induction false} StuckStays(dfa: Dfa, input: string, i: nat, j: nat)
    requires i <= j <= |input| && Run(dfa, input[..i]).None?
    ensures Run(dfa, input[..j]).None?
    decreases j
  {
    if j > i {
      StuckStays(dfa, input, i, j - 1);
      assert input[..j][..j - 1] == input[..j - 1];
    }
  }

  /** Past a stuck position no longer prefix is accepted. */
  lemma {:induction false} LongestPastStuck(dfa: Dfa, input: string, i: nat, k: nat)
    requires i <= k <= |input| && Run(dfa, input[..i]).None?
    ensures i > 0 ==> LongestUpTo(dfa, input, k) == LongestUpTo(dfa, input, i - 1)
    decreases k
  {
    if k > i {
      StuckStays(dfa, input, i, k);
      LongestPastStuck(dfa, input, i, k - 1);
    } else if i > 0 {
      assert !Accepts(dfa, input[..i]);
    }
  }

  /** What `scan_next_token` returns: the longest accepted prefix, the action
      of the state it ends in ("UNKNOWN" if that state has none) and the
      rest of the input; or an empty token and action and the whole input
      when no prefix is accepted. */
  function ScanOf(dfa: Dfa, input: string): (string, Action, string)
  {
    var k := LongestUpTo(dfa, input, |input|);
    if k == 0 then ("", "", input)
    else
      var q := Run(dfa, input[..k]).value;
      (input[..k], if q in dfa.actions then dfa.actions[q] else "UNKNOWN", input[k..])
  }

  /** `scan_next_token`: walk forward from the start, remembering the last
      final state met and the length read when it was met. */
  method ScanNextToken(dfa: Dfa, input: string) returns (token: string, action: Action, rest: string)
    ensures (token, action, rest) == ScanOf(dfa, input)
  {
    var current := dfa.start;
    var lastAccepting: Option<StateId> := None;
    var lastLength := 0;
    var i := 0;
    while i < |input|
      invariant i <= |input|
      invariant Run(dfa, input[..i]) == Some(current)
      invariant lastLength == LongestUpTo(dfa, input, i)
      invariant lastAccepting.None? <==> lastLength == 0
      invariant lastAccepting.Some? ==> Run(dfa, input[..lastLength]) == lastAccepting
    {
      var c := input[i];
      assert input[..i + 1][..i] == input[..i];
      if c !in dfa.alphabet || (current, Char(c)) !in dfa.transitions {
        LongestPastStuck(dfa, input, i + 1, |input|);
        break;
      }
      current := dfa.transitions[(current, Char(c))];
      if current in dfa.finals {
        lastAccepting := Some(current);
        lastLength := i + 1;
      }
      i := i + 1;
    }
    match lastAccepting {
      case Some(state) =>
        token := input[..lastLength];
        action := if state in dfa.actions then dfa.actions[state] else "UNKNOWN";
        rest := input[lastLength..];
      case None =>
        token, action, rest := "", "", input;
    }
  }

  /** The tokens `simulate` emits: scan repeatedly until the input is
      exhausted or no prefix is accepted. */
  function Tokens(dfa: Dfa, input: string): seq<(string, Action)>
    decreases |input|
  {
    if input == [] then []
    else
      var (token, action, rest) := ScanOf(dfa, input);
      if token == [] then [] else [(token, action)] + Tokens(dfa, rest)
  }

  /** `simulate`. */
  method Simulate(dfa: Dfa, input: string) returns (tokens: seq<(string, Action)>)
    ensures tokens == Tokens(dfa, input)
  {
    tokens := [];
    var remaining := input;
    while remaining != []
      invariant tokens + Tokens(dfa, remaining) == Tokens(dfa, input)
      decreases |remaining|
    {
      var token, action, rest := ScanNextToken(dfa, remaining);
      if token == [] {
        break;
      }
      tokens := tokens + [(token, action)];
      remaining := rest;
    }
  }

  /** The text of a token list, in order. */
  function Joined(ts: seq<(string, Action)>): string
  {
    if ts == [] then [] else ts[0].0 + Joined(ts[1..])
  }

  /** The tokens `simulate` emits are accepted, non-empty and, put back
      together, a prefix of the input. */
  lemma {:induction false} TokensCover(dfa: Dfa, input: string)
    ensures Joined(Tokens(dfa, input)) <= input
    ensures forall i | 0 <= i < |Tokens(dfa, input)| :: Accepts(dfa, Tokens(dfa, input)[i].0)
    decreases |input|
  {
    if input != [] {
      var k := LongestUpTo(dfa, input, |input|);
      if k > 0 {
        var rest := input[k..];
        TokensCover(dfa, rest);
        var ts := Tokens(dfa, input);
        assert ts == [(input[..k], ScanOf(dfa, input).1)] + Tokens(dfa, rest);
        assert ts[1..] == Tokens(dfa, rest);
        assert input == input[..k] + rest;
        forall i | 0 <= i < |ts| ensures Accepts(dfa, ts[i].0) {
          if i > 0 { assert ts[i] == Tokens(dfa, rest)[i - 1]; }
        }
      }
    }
  }
  /** The tokens stop only at the end of the input or at a position from
      which no non-empty prefix of the rest is accepted. */
  lemma {:induction false} TokensStop(dfa: Dfa, input: string)
    ensures |Joined(Tokens(dfa, input))| <= |input|
    ensures var j := |Joined(Tokens(dfa, input))|;
      j < |input| ==>
        && LongestUpTo(dfa, input[j..], |input| - j) == 0
        && forall k | 0 < k <= |input| - j :: !Accepts(dfa, input[j..][..k])
    decreases |input|
  {
    if input != [] {
      var k := LongestUpTo(dfa, input, |input|);
      if k == 0 {
        assert Tokens(dfa, input) == [];
        assert input[0..] == input;
      } else {
        var rest := input[k..];
        TokensStop(dfa, rest);
        var ts := Tokens(dfa, input);
        assert ts == [(input[..k], ScanOf(dfa, input).1)] + Tokens(dfa, rest);
        assert ts[1..] == Tokens(dfa, rest);
        var j' := |Joined(Tokens(dfa, rest))|;
        assert |Joined(ts)| == k + j';
        assert input[k + j'..] == rest[j'..];
      }
    }
  }

}
