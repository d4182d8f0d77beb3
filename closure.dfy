/** `NFA::epsilon_closure` (src/nfa.rs): the states reachable from a set by
    ε-moves alone, computed with a stack worklist. */
module Closures {
  import opened Base
  import opened Symbols
  import opened Nfas

  /** No ε-edge leaves `c`. */
  ghost predicate EpsClosed(t: Transitions, c: set<StateId>)
  {
    forall q | q in c :: Targets(t, q, Epsilon) <= c
  }

  /** `r` is the ε-closure of `s`: it contains `s`, no ε-edge leaves it, and
      it lies inside every other ε-closed superset of `s`. */
  ghost predicate IsClosure(t: Transitions, s: set<StateId>, r: set<StateId>)
  {
    && s <= r
    && EpsClosed(t, r)
    && forall c | s <= c && EpsClosed(t, c) :: r <= c
  }

  /** The states one ε-move away from `c`. */
  function EpsStep(t: Transitions, c: set<StateId>): set<StateId>
  {
    set q, x | q in c && x in Targets(t, q, Epsilon) :: x
  }

  /** Every state some ε-edge enters. */
  function EpsTargets(t: Transitions): set<StateId>
  {
    set k, x | k in t && k.1 == Epsilon && x in t[k] :: x
  }

  lemma StepWithin(t: Transitions, c: set<StateId>)
    ensures EpsStep(t, c) <= EpsTargets(t)
  {
    forall x | x in EpsStep(t, c) ensures x in EpsTargets(t) {
      var q :| q in c && x in Targets(t, q, Epsilon);
      assert (q, Epsilon) in t;
    }
  }

  /** A reference definition of the closure: add the one-step successors
      until nothing new appears. Every round adds an ε-target, so it stops
      once they are all in. */
  function ClosureFrom(t: Transitions, c: set<StateId>): (r: set<StateId>)
    decreases EpsTargets(t) - c
  {
    var next := EpsStep(t, c);
    if next <= c then c
    else
      StepWithin(t, c);
      ClosureFrom(t, c + next)
  }

  /** The ε-closure of `s` by the reference definition. */
  function ClosureOf(t: Transitions, s: set<StateId>): (r: set<StateId>)
  {
    ClosureFrom(t, s)
  }

  /** The rounds of `ClosureFrom` never leave the closure of `s`, and they
      end on an ε-closed set. */
  lemma {:induction false} ClosureFromIs(t: Transitions, s: set<StateId>, c: set<StateId>)
    requires s <= c
    requires forall d | s <= d && EpsClosed(t, d) :: c <= d
    ensures IsClosure(t, s, ClosureFrom(t, c))
    decreases EpsTargets(t) - c
  {
    var next := EpsStep(t, c);
    if next <= c {
      forall q | q in c ensures Targets(t, q, Epsilon) <= c {
        forall x | x in Targets(t, q, Epsilon) ensures x in c {
          assert x in next;
        }
      }
    } else {
      StepWithin(t, c);
      forall d | s <= d && EpsClosed(t, d) ensures c + next <= d {
        forall x | x in next ensures x in d {
          var q :| q in c && x in Targets(t, q, Epsilon);
        }
      }
      ClosureFromIs(t, s, c + next);
    }
  }

  /** The reference definition meets the characterisation. */
  lemma ClosureOfIs(t: Transitions, s: set<StateId>)
    ensures IsClosure(t, s, ClosureOf(t, s))
  {
    ClosureFromIs(t, s, s);
  }

  /** A set has at most one ε-closure. */
  lemma ClosureUnique(t: Transitions, s: set<StateId>, r1: set<StateId>, r2: set<StateId>)
    requires IsClosure(t, s, r1) && IsClosure(t, s, r2)
    ensures r1 == r2
  {
    assert r1 <= r2 && r2 <= r1;
  }

  /** A set is its own closure exactly when it is ε-closed. */
  lemma ClosureOfClosed(t: Transitions, s: set<StateId>)
    ensures ClosureOf(t, s) == s <==> EpsClosed(t, s)
  {
    ClosureOfIs(t, s);
  }

  /** Closing twice adds nothing. */
  lemma ClosureIdempotent(t: Transitions, s: set<StateId>)
    ensures ClosureOf(t, ClosureOf(t, s)) == ClosureOf(t, s)
  {
    ClosureOfIs(t, s);
    ClosureOfClosed(t, ClosureOf(t, s));
  }

  /** A larger set has a larger closure. */
  lemma ClosureMonotone(t: Transitions, s1: set<StateId>, s2: set<StateId>)
    requires s1 <= s2
    ensures ClosureOf(t, s1) <= ClosureOf(t, s2)
  {
    ClosureOfIs(t, s1);
    ClosureOfIs(t, s2);
  }

  /** The inner loop of `epsilon_closure`: insert each successor into the
      closure, pushing the ones that were not already there. */
  method InsertSuccessors(closure: set<StateId>, stack: seq<StateId>, next: set<StateId>)
    returns (closure': set<StateId>, stack': seq<StateId>)
    ensures closure' == closure + next
    ensures forall x :: x in stack' <==> x in stack || x in next - closure
    ensures next <= closure ==> stack' == stack
  {
    closure', stack' := closure, stack;
    var rest := next;
    while rest != {}
      invariant rest <= next
      invariant closure' == closure + (next - rest)
      invariant forall x :: x in stack' <==> x in stack || x in (next - rest) - closure
      invariant next <= closure ==> stack' == stack
      decreases rest
    {
      var x := MinOf(rest);
      rest := rest - {x};
      if x !in closure' {
        closure' := closure' + {x};
        stack' := stack' + [x];
      }
    }
  }

  /** The invariant of the worklist loop: the closure so far lies between
      `states` and every ε-closed superset of it, stacked states are in it,
      and every state already popped has its ε-successors in it. */
  ghost predicate Worklist(t: Transitions, states: set<StateId>, universe: set<StateId>,
                           closure: set<StateId>, stack: seq<StateId>)
  {
    && states <= closure <= universe
    && (forall x | x in stack :: x in closure)
    && (forall q | q in closure && q !in stack :: Targets(t, q, Epsilon) <= closure)
    && (forall c | states <= c && EpsClosed(t, c) :: closure <= c)
  }

  /** Popping `state` and inserting its ε-successors keeps the invariant,
      and either the closure grows or the stack shrinks. */
  lemma PopKeeps(t: Transitions, states: set<StateId>, closure: set<StateId>, stack: seq<StateId>,
                 state: StateId, closure': set<StateId>, stack': seq<StateId>)
    requires Worklist(t, states, states + EpsTargets(t), closure, stack + [state])
    requires closure' == closure + Targets(t, state, Epsilon)
    requires forall x :: x in stack' <==> x in stack || x in Targets(t, state, Epsilon) - closure
    requires Targets(t, state, Epsilon) <= closure ==> stack' == stack
    ensures Worklist(t, states, states + EpsTargets(t), closure', stack')
    ensures || (states + EpsTargets(t)) - closure' < (states + EpsTargets(t)) - closure
            || (closure' == closure && stack' == stack)
  {
    var next := Targets(t, state, Epsilon);
    assert state in closure;
    assert next <= EpsTargets(t) by {
      StepWithin(t, {state});
      assert next <= EpsStep(t, {state});
    }
    forall c | states <= c && EpsClosed(t, c) ensures closure' <= c {
      assert state in c;
    }
    forall q | q in closure' && q !in stack' ensures Targets(t, q, Epsilon) <= closure' {
      if q != state {
        assert q in closure && q !in stack + [state];
      }
    }
    if !(next <= closure) {
      var x :| x in next && x !in closure;
      assert x in (states + EpsTargets(t)) - closure;
    }
  }

  /** A non-empty sequence is its front followed by its last entry. */
  lemma SplitLast<T>(s: seq<T>)
    requires s != []
    ensures s == s[..|s| - 1] + [s[|s| - 1]]
  {
  }

  /** `epsilon_closure`: start from the given states and a stack of them;
      pop a state, and push each of its ε-successors that is newly inserted
      into the closure. */
  method EpsilonClosure(n: Nfa, states: set<StateId>) returns (closure: set<StateId>)
    ensures IsClosure(n.transitions, states, closure)
    ensures closure == ClosureOf(n.transitions, states)
  {
    var t := n.transitions;
    ghost var universe := states + EpsTargets(t);
    closure := states;
    var stack := AscendingIds(states);
    while stack != []
      invariant Worklist(t, states, universe, closure, stack)
      decreases universe - closure, |stack|
    {
      SplitLast(stack);
      var state := stack[|stack| - 1];
      stack := stack[..|stack| - 1];
      var next := Targets(t, state, Epsilon);
      var closure', stack' := InsertSuccessors(closure, stack, next);
      PopKeeps(t, states, closure, stack, state, closure', stack');
      closure, stack := closure', stack';
    }
    ClosureOfIs(t, states);
    ClosureUnique(t, states, closure, ClosureOf(t, states));
  }
}
