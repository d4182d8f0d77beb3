/** Thompson's construction (src/nfa.rs).  An `NFA` is an owned value: a
    finite state set, the input alphabet, a map from (state, label) to the
    set of successor states, a start state, the final states and the
    actions attached to states.  Fragments are built by allocating fresh
    ids with `AddState` and recording edges with `AddTransition`; every
    combinator copies its operands into a fresh arena, renumbering their
    states in ascending order. */
module Nfas {
  import opened Base
  import opened Symbols

  type Key = (StateId, Symbol)
  type Edge = (StateId, Symbol, StateId)
  type Transitions = map<Key, set<StateId>>

  datatype Nfa = Nfa(
    states: set<StateId>,
    alphabet: set<char>,
    transitions: Transitions,
    start: StateId,
    finals: set<StateId>,
    actions: map<StateId, Action>)

  /** `NFA::default()`: no state at all, start id 0. */
  const Default: Nfa := Nfa({}, {}, map[], 0, {}, map[])

  // ---------------------------------------------------------------------
  // The edge-set view of a transition map
  // ---------------------------------------------------------------------

  /** Every edge (from, label, to) recorded in a transition map. */
  ghost function Edges(t: Transitions): set<Edge>
  {
    set k, to | k in t && to in t[k] :: (k.0, k.1, to)
  }

  /** No key of the map carries an empty successor set (`add_transition`
      never creates one). */
  ghost predicate NoEmptyTargets(t: Transitions)
  {
    forall k | k in t :: t[k] != {}
  }

  /** The transition map whose edges are exactly `es`. */
  function FromEdges(es: set<Edge>): Transitions
  {
    map k | k in (set e | e in es :: (e.0, e.1)) :: (set e | e in es && e.0 == k.0 && e.1 == k.1 :: e.2)
  }

  lemma EdgesOfFromEdges(es: set<Edge>)
    ensures Edges(FromEdges(es)) == es
    ensures NoEmptyTargets(FromEdges(es))
  {
    var t := FromEdges(es);
    forall e | e in es ensures e in Edges(t) {
      assert (e.0, e.1) in t && e.2 in t[(e.0, e.1)];
    }
    forall k | k in t ensures t[k] != {} {
      var e :| e in es && (e.0, e.1) == k;
      assert e.2 in t[k];
    }
  }

  /** A map without empty successor sets is determined by its edges. */
  lemma FromEdgesOfEdges(t: Transitions)
    requires NoEmptyTargets(t)
    ensures FromEdges(Edges(t)) == t
  {
    var u := FromEdges(Edges(t));
    forall k | k in t ensures k in u && u[k] == t[k] {
      var to :| to in t[k];
      assert (k.0, k.1, to) in Edges(t);
      assert forall x :: x in u[k] <==> (k.0, k.1, x) in Edges(t);
    }
    forall k | k in u ensures k in t {
      var e :| e in Edges(t) && (e.0, e.1) == k;
    }
  }

  /** The characters consumed by a set of edges. */
  ghost function EdgeChars(es: set<Edge>): set<char>
  {
    set e, c | e in es && c in SymbolChars(e.1) :: c
  }

  lemma EdgeCharsUnion(a: set<Edge>, b: set<Edge>)
    ensures EdgeChars(a + b) == EdgeChars(a) + EdgeChars(b)
  {
  }

  /** The successors of `from` under `sym`; empty when no entry exists. */
  function Targets(t: Transitions, from: StateId, sym: Symbol): set<StateId>
  {
    if (from, sym) in t then t[(from, sym)] else {}
  }

  // ---------------------------------------------------------------------
  // Well-formedness
  // ---------------------------------------------------------------------

  /** What every combinator indexes without checking (`first_map[&s]` panics
      otherwise): the start state, the final states and the endpoints of
      every edge are states of the automaton. */
  ghost predicate Valid(n: Nfa)
  {
    && n.start in n.states
    && n.finals <= n.states
    && forall e | e in Edges(n.transitions) :: e.0 in n.states && e.2 in n.states
  }

  /** The shape every automaton built in this module has: valid, dense ids
      0..|states|-1, no empty successor set, every consumed character in the
      alphabet, actions only on states. */
  ghost predicate WellFormed(n: Nfa)
  {
    && Valid(n)
    && n.states == Range(|n.states|)
    && NoEmptyTargets(n.transitions)
    && EdgeChars(Edges(n.transitions)) <= n.alphabet
    && n.actions.Keys <= n.states
  }

  // ---------------------------------------------------------------------
  // Renumbering
  // ---------------------------------------------------------------------

  /** The number of members of `s` below `x`: `x`'s position when `s` is
      iterated in ascending order. */
  function Rank(s: set<StateId>, x: StateId): nat
  {
    |set y: StateId | y in s && y < x|
  }

  /** The id each state of `s` receives when the states are copied, in
      ascending order, into an arena that already holds `offset` states. */
  function Renum(s: set<StateId>, offset: nat): map<StateId, StateId>
  {
    map x: StateId | x in s :: offset + Rank(s, x)
  }

  ghost predicate Injective(m: map<StateId, StateId>)
  {
    forall x, y | x in m && y in m && x != y :: m[x] != m[y]
  }

  lemma RankMonotone(s: set<StateId>, x: StateId, y: StateId)
    requires x in s && x < y
    ensures Rank(s, x) < Rank(s, y)
  {
    var below := set z: StateId | z in s && z < x;
    var belowY := set z: StateId | z in s && z < y;
    assert below <= belowY;
    assert x in belowY - below;
    assert belowY == below + (belowY - below);
    assert |belowY| == |below| + |belowY - below|;
  }

  lemma RankBound(s: set<StateId>, x: StateId)
    requires x in s
    ensures Rank(s, x) < |s|
  {
    var below := set z: StateId | z in s && z < x;
    SubsetSize(below, s - {x});
  }

  /** Renumbering is a bijection of `s` onto offset..offset+|s|-1 that keeps
      the order of ids. */
  lemma RenumProperties(s: set<StateId>, offset: nat)
    ensures Injective(Renum(s, offset))
    ensures forall x | x in s :: offset <= Renum(s, offset)[x] < offset + |s|
    ensures forall x, y | x in s && y in s && x < y :: Renum(s, offset)[x] < Renum(s, offset)[y]
  {
    forall x, y | x in s && y in s && x < y
      ensures Renum(s, offset)[x] < Renum(s, offset)[y]
    {
      RankMonotone(s, x, y);
    }
    forall x | x in s ensures Renum(s, offset)[x] < offset + |s| {
      RankBound(s, x);
    }
  }

  /** The image of a set of states under a renumbering. */
  function Image(s: set<StateId>, m: map<StateId, StateId>): set<StateId>
  {
    set x: StateId | x in s && x in m :: m[x]
  }

  /** The edges of `t`, renumbered by `m`. */
  ghost function RenumEdges(t: Transitions, m: map<StateId, StateId>): set<Edge>
  {
    set e | e in Edges(t) && e.0 in m && e.2 in m :: (m[e.0], e.1, m[e.2])
  }

  /** `into`, after the actions of the first `count` states of the listing
      `order` have been moved onto ids offset, offset + 1, ...: the state at
      position j of the listing becomes offset + j. */
  function ShiftActions(into: map<StateId, Action>, acts: map<StateId, Action>, order: seq<StateId>,
                        offset: nat, count: nat): map<StateId, Action>
    requires count <= |order|
  {
    if count == 0 then into
    else
      var prev := ShiftActions(into, acts, order, offset, count - 1);
      var x := order[count - 1];
      if x in acts then prev[offset + count - 1 := acts[x]] else prev
  }

  lemma {:induction false} ShiftActionsOnto(into: map<StateId, Action>, acts: map<StateId, Action>,
                                            order: seq<StateId>, offset: nat, count: nat)
    requires count <= |order|
    ensures ShiftActions(into, acts, order, offset, count) == into + ShiftActions(map[], acts, order, offset, count)
  {
    if count > 0 {
      ShiftActionsOnto(into, acts, order, offset, count - 1);
      var x := order[count - 1];
      if x in acts {
        MergeUpdate(into, ShiftActions(map[], acts, order, offset, count - 1), offset + count - 1, acts[x]);
      }
    }
  }

  lemma {:induction false} ShiftActionsAt(acts: map<StateId, Action>, order: seq<StateId>, offset: nat, count: nat)
    requires count <= |order|
    ensures forall k :: k in ShiftActions(map[], acts, order, offset, count) <==>
      (offset <= k < offset + count && order[k - offset] in acts)
    ensures forall j | 0 <= j < count && order[j] in acts ::
      ShiftActions(map[], acts, order, offset, count)[offset + j] == acts[order[j]]
  {
    if count > 0 {
      ShiftActionsAt(acts, order, offset, count - 1);
    }
  }

  /** The actions of the states of `s`, moved to their renumbered ids. */
  ghost function RenumActions(acts: map<StateId, Action>, s: set<StateId>, offset: nat): map<StateId, Action>
  {
    RenumProperties(s, offset);
    map x: StateId | x in s && x in acts :: Renum(s, offset)[x] := acts[x]
  }

  /** A state of `s` keeps its action, under its new id. */
  lemma RenumActionsOfState(acts: map<StateId, Action>, s: set<StateId>, offset: nat, x: StateId)
    requires x in s
    ensures Renum(s, offset)[x] in RenumActions(acts, s, offset) <==> x in acts
    ensures x in acts ==> RenumActions(acts, s, offset)[Renum(s, offset)[x]] == acts[x]
  {
    RenumProperties(s, offset);
  }

  /** Only the new ids of states of `s` receive an action. */
  lemma RenumActionsKey(acts: map<StateId, Action>, s: set<StateId>, offset: nat, k: StateId)
    requires k in RenumActions(acts, s, offset)
    ensures k in Image(s, Renum(s, offset))
  {
  }

  /** A state of `s` keeps its action, under its new id, and no other id
      receives one. */
  lemma RenumActionsAt(acts: map<StateId, Action>, s: set<StateId>, offset: nat)
    ensures forall x | x in s :: (Renum(s, offset)[x] in RenumActions(acts, s, offset) <==> x in acts)
    ensures forall x | x in s && x in acts :: RenumActions(acts, s, offset)[Renum(s, offset)[x]] == acts[x]
    ensures RenumActions(acts, s, offset).Keys <= Image(s, Renum(s, offset))
  {
    forall x | x in s
      ensures Renum(s, offset)[x] in RenumActions(acts, s, offset) <==> x in acts
      ensures x in acts ==> RenumActions(acts, s, offset)[Renum(s, offset)[x]] == acts[x]
    {
      RenumActionsOfState(acts, s, offset, x);
    }
  }

  /** The i-th id of an ascending listing of `s` has rank i. */
  lemma RankAt(s: set<StateId>, order: seq<StateId>, i: nat)
    requires AscendingListing(order, s) && i < |order|
    ensures Rank(s, order[i]) == i
  {
    BelowInOrder(s, order, i);
    AscendingCard(order[..i]);
  }

  lemma ShiftedKey(acts: map<StateId, Action>, s: set<StateId>, order: seq<StateId>, offset: nat, k: StateId)
    requires AscendingListing(order, s) && |order| == |s|
    requires k in ShiftActions(map[], acts, order, offset, |s|)
    ensures k in RenumActions(acts, s, offset)
    ensures RenumActions(acts, s, offset)[k] == ShiftActions(map[], acts, order, offset, |s|)[k]
  {
    ShiftActionsAt(acts, order, offset, |s|);
    var j := k - offset;
    assert 0 <= j < |order| && order[j] in acts;
    var x := order[j];
    assert x in s;
    RankAt(s, order, j);
    assert Renum(s, offset)[x] == k;
    RenumActionsOfState(acts, s, offset, x);
  }

  lemma RenumedKey(acts: map<StateId, Action>, s: set<StateId>, order: seq<StateId>, offset: nat, k: StateId)
    requires AscendingListing(order, s) && |order| == |s|
    requires k in RenumActions(acts, s, offset)
    ensures k in ShiftActions(map[], acts, order, offset, |s|)
  {
    var x :| x in s && x in acts && Renum(s, offset)[x] == k;
    var j :| 0 <= j < |order| && order[j] == x;
    RankAt(s, order, j);
    ShiftActionsAt(acts, order, offset, |s|);
  }

  /** Moving the actions along an ascending listing, position by position,
      is the renumbering of the actions. */
  lemma ShiftIsRenum(acts: map<StateId, Action>, s: set<StateId>, order: seq<StateId>, offset: nat)
    requires AscendingListing(order, s) && |order| == |s|
    ensures ShiftActions(map[], acts, order, offset, |s|) == RenumActions(acts, s, offset)
  {
    forall k | k in ShiftActions(map[], acts, order, offset, |s|)
      ensures k in RenumActions(acts, s, offset)
      ensures RenumActions(acts, s, offset)[k] == ShiftActions(map[], acts, order, offset, |s|)[k]
    {
      ShiftedKey(acts, s, order, offset, k);
    }
    forall k | k in RenumActions(acts, s, offset) ensures k in ShiftActions(map[], acts, order, offset, |s|) {
      RenumedKey(acts, s, order, offset, k);
    }
  }

  // ---------------------------------------------------------------------
  // add_state, add_action, add_transition
  // ---------------------------------------------------------------------

  /** `add_state`: 0 in an empty arena, one past the largest id otherwise
      (so the new id was not a state before); only that id is added. */
  method AddState(n: Nfa) returns (r: Nfa, id: StateId)
    ensures n.states == {} ==> id == 0
    ensures n.states != {} ==> id - 1 in n.states
    ensures forall s | s in n.states :: s < id
    ensures r == n.(states := n.states + {id})
  {
    if n.states == {} {
      id := 0;
    } else {
      id := MaxOf(n.states) + 1;
    }
    r := n.(states := n.states + {id});
  }

  /** In a dense arena 0..k-1 the next id is k. */
  lemma NextIdOfRange(k: nat, id: StateId)
    requires Range(k) == {} ==> id == 0
    requires Range(k) != {} ==> id - 1 in Range(k)
    requires forall s | s in Range(k) :: s < id
    ensures id == k && Range(k) + {id} == Range(k + 1)
  {
    if k > 0 {
      assert k - 1 in Range(k);
    }
  }

  /** `add_action`: attaches (or replaces) the action of a state. */
  method AddAction(n: Nfa, state: StateId, action: Action) returns (r: Nfa)
    ensures r.actions.Keys == n.actions.Keys + {state} && r.actions[state] == action
    ensures forall s | s in n.actions && s != state :: r.actions[s] == n.actions[s]
    ensures r == n.(actions := r.actions)
  {
    r := n.(actions := n.actions[state := action]);
  }

  lemma EdgesUpdate(t: Transitions, from: StateId, sym: Symbol, to: StateId)
    ensures Edges(t[(from, sym) := Targets(t, from, sym) + {to}]) == Edges(t) + {(from, sym, to)}
  {
    var u := t[(from, sym) := Targets(t, from, sym) + {to}];
    forall e | e in Edges(t) ensures e in Edges(u) {
      assert (e.0, e.1) in u && e.2 in u[(e.0, e.1)];
    }
    assert (from, sym) in u && to in u[(from, sym)];
  }

  /** `add_transition`: `to` joins the successors of (from, sym) and no other
      edge appears; the alphabet gains the characters the label consumes. */
  method AddTransition(n: Nfa, from: StateId, sym: Symbol, to: StateId) returns (r: Nfa)
    ensures r == n.(transitions := n.transitions[(from, sym) := Targets(n.transitions, from, sym) + {to}],
                    alphabet := n.alphabet + SymbolChars(sym))
    ensures Edges(r.transitions) == Edges(n.transitions) + {(from, sym, to)}
    ensures NoEmptyTargets(n.transitions) ==> NoEmptyTargets(r.transitions)
  {
    var transitions := n.transitions[(from, sym) := Targets(n.transitions, from, sym) + {to}];
    var alphabet := n.alphabet;
    match sym {
      case Epsilon =>
      case Char(c) =>
        alphabet := alphabet + {c};
      case CharClass(members) =>
        var rest := members;
        while rest != {}
          invariant rest <= members
          invariant alphabet == n.alphabet + (members - rest)
          decreases rest
        {
          var c :| c in rest;
          alphabet := alphabet + {c};
          rest := rest - {c};
        }
    }
    r := n.(transitions := transitions, alphabet := alphabet);
    EdgesUpdate(n.transitions, from, sym, to);
  }

  /** `add_transition` seen through the edge view: one edge more, the
      label's characters added to the alphabet, nothing else changed. */
  method AddEdge(n: Nfa, from: StateId, sym: Symbol, to: StateId) returns (r: Nfa)
    ensures Edges(r.transitions) == Edges(n.transitions) + {(from, sym, to)}
    ensures NoEmptyTargets(n.transitions) ==> NoEmptyTargets(r.transitions)
    ensures r == n.(transitions := r.transitions, alphabet := n.alphabet + SymbolChars(sym))
  {
    r := AddTransition(n, from, sym, to);
  }

  /** An empty move added: one edge more, the alphabet untouched. */
  method AddEpsilon(n: Nfa, from: StateId, to: StateId) returns (r: Nfa)
    ensures Edges(r.transitions) == Edges(n.transitions) + {(from, Epsilon, to)}
    ensures NoEmptyTargets(n.transitions) ==> NoEmptyTargets(r.transitions)
    ensures r == n.(transitions := r.transitions)
  {
    r := AddEdge(n, from, Epsilon, to);
  }

  // ---------------------------------------------------------------------
  // The copying loops shared by the combinators
  // ---------------------------------------------------------------------

  /** In an ascending listing of `s`, the members below the i-th are the
      first i entries. */
  lemma BelowInOrder(s: set<StateId>, q: seq<StateId>, i: nat)
    requires forall x :: x in q <==> x in s
    requires forall a, b :: 0 <= a < b < |q| ==> q[a] < q[b]
    requires i < |q|
    ensures (set y: StateId | y in s && y < q[i]) == set x: StateId | x in q[..i]
  {
    forall y | y in s && y < q[i] ensures y in q[..i] {
      var k :| 0 <= k < |q| && q[k] == y;
      assert q[..i][k] == y;
    }
  }

  lemma RenumByRank(s: set<StateId>, offset: nat, m: map<StateId, StateId>)
    requires m.Keys == s
    requires forall x | x in m :: m[x] == offset + Rank(s, x)
    ensures m == Renum(s, offset)
  {
  }

  lemma UnionAssoc<T>(a: set<T>, b: set<T>, c: set<T>)
    ensures (a + b) + c == a + (b + c)
  {
  }

  lemma LinkPairStep<T>(a: set<T>, b: set<T>, c: set<T>, x: T, y: T)
    ensures a + (b + {x}) + (c + {y}) == a + b + c + {x} + {y}
  {
  }

  lemma MergeUpdate<K, V>(a: map<K, V>, b: map<K, V>, k: K, v: V)
    ensures (a + b)[k := v] == a + b[k := v]
  {
  }

  /** Only the i-th state of an ascending listing has rank i. */
  lemma RankUnique(s: set<StateId>, order: seq<StateId>, x: StateId, i: nat)
    requires AscendingListing(order, s) && i < |order| && x in s && Rank(s, x) == i
    ensures x == order[i]
  {
    var y := order[i];
    RankAt(s, order, i);
    if x < y { RankMonotone(s, x, y); }
    if y < x { RankMonotone(s, y, x); }
  }

  /** The renumbering of the `count` least states of `s`. */
  ghost function RenumPrefix(s: set<StateId>, offset: nat, count: nat): map<StateId, StateId>
  {
    map x: StateId | x in s && Rank(s, x) < count :: offset + Rank(s, x)
  }

  lemma RenumPrefixStep(s: set<StateId>, order: seq<StateId>, offset: nat, i: nat)
    requires AscendingListing(order, s) && |order| == |s|
    requires i < |s|
    ensures RenumPrefix(s, offset, i + 1) == RenumPrefix(s, offset, i)[order[i] := offset + i]
  {
    var x := order[i];
    RankAt(s, order, i);
    forall y | y in s && Rank(s, y) == i ensures y == x {
      RankUnique(s, order, y, i);
    }
  }

  lemma RenumPrefixAll(s: set<StateId>, offset: nat)
    ensures RenumPrefix(s, offset, |s|) == Renum(s, offset)
  {
    forall x | x in s ensures Rank(s, x) < |s| {
      RankBound(s, x);
    }
  }

  /** The state of the copying loop after the first `i` states of the
      listing `order` of `src` have been copied into `r`, starting at id
      `base`. */
  ghost predicate Copied(n: Nfa, src: set<StateId>, acts: map<StateId, Action>, order: seq<StateId>,
                         base: nat, i: nat, r: Nfa, m: map<StateId, StateId>)
  {
    && AscendingListing(order, src) && |order| == |src| && i <= |order|
    && m == RenumPrefix(src, base, i)
    && r.states == Range(base + i)
    && r.actions == ShiftActions(n.actions, acts, order, base, i)
    && r == n.(states := r.states, actions := r.actions)
  }

  /** One round of the copying loop: a fresh id for the next state of the
      listing, recorded in the map, and its action moved along. */
  method CopyState(ghost n: Nfa, src: set<StateId>, acts: map<StateId, Action>, order: seq<StateId>,
                   ghost base: nat, i: nat, r: Nfa, m: map<StateId, StateId>)
    returns (r': Nfa, m': map<StateId, StateId>)
    requires Copied(n, src, acts, order, base, i, r, m) && i < |order|
    ensures Copied(n, src, acts, order, base, i + 1, r', m')
  {
    var x := order[i];
    var id;
    r', id := AddState(r);
    NextIdOfRange(base + i, id);
    RenumPrefixStep(src, order, base, i);
    m' := m[x := id];
    if x in acts {
      r' := r'.(actions := r'.actions[id := acts[x]]);
    }
  }

  /** The loop `for &state in &src.states { let new_state = nfa.add_state();
      map.insert(state, new_state); ... }`: the states of `src`, in
      ascending order, receive the next free ids of a dense arena, and their
      actions in `acts` move along. */
  method CopyStates(n: Nfa, src: set<StateId>, acts: map<StateId, Action>) returns (r: Nfa, m: map<StateId, StateId>)
    requires n.states == Range(|n.states|)
    ensures m == Renum(src, |n.states|)
    ensures r.states == Range(|n.states| + |src|) && |r.states| == |n.states| + |src|
    ensures r.actions == n.actions + RenumActions(acts, src, |n.states|)
    ensures r == n.(states := r.states, actions := r.actions)
  {
    var order := AscendingIds(src);
    r, m := n, map[];
    assert RenumPrefix(src, |n.states|, 0) == map[];
    for i := 0 to |order|
      invariant Copied(n, src, acts, order, |n.states|, i, r, m)
    {
      r, m := CopyState(n, src, acts, order, |n.states|, i, r, m);
    }
    CopiedAll(n, src, acts, order, |n.states|, r, m);
  }

  /** When the whole listing has been copied, the map is the renumbering. */
  lemma CopiedAll(n: Nfa, src: set<StateId>, acts: map<StateId, Action>, order: seq<StateId>,
                  base: nat, r: Nfa, m: map<StateId, StateId>)
    requires Copied(n, src, acts, order, base, |order|, r, m)
    ensures m == Renum(src, base)
    ensures r.states == Range(base + |src|) && |r.states| == base + |src|
    ensures r.actions == n.actions + RenumActions(acts, src, base)
    ensures r == n.(states := r.states, actions := r.actions)
  {
    assert r.states == Range(base + |src|);
    RangeCard(base + |src|, r.states);
    RenumPrefixAll(src, base);
    ShiftActionsOnto(n.actions, acts, order, base, |order|);
    ShiftIsRenum(acts, src, order, base);
  }

  /** The edges of `t` whose key lies in `keys`, renumbered by `m`. */
  ghost function RenumEdgesOn(t: Transitions, m: map<StateId, StateId>, keys: set<Key>): set<Edge>
  {
    set e | e in Edges(t) && (e.0, e.1) in keys && e.0 in m && e.2 in m :: (m[e.0], e.1, m[e.2])
  }

  /** The edges from `from` under `sym` to the renumbered `targets`. */
  ghost function FanOut(from: StateId, sym: Symbol, targets: set<StateId>, m: map<StateId, StateId>): set<Edge>
    requires targets <= m.Keys
  {
    set to: StateId | to in targets :: (from, sym, m[to])
  }

  lemma FanOutStep(from: StateId, sym: Symbol, done: set<StateId>, to: StateId, m: map<StateId, StateId>)
    requires done <= m.Keys && to in m
    ensures FanOut(from, sym, done + {to}, m) == FanOut(from, sym, done, m) + {(from, sym, m[to])}
    ensures EdgeChars(FanOut(from, sym, done + {to}, m)) == EdgeChars(FanOut(from, sym, done, m)) + SymbolChars(sym)
  {
    EdgeCharsUnion(FanOut(from, sym, done, m), {(from, sym, m[to])});
  }

  lemma FanOutAdd(es: set<Edge>, alphabet: set<char>, from: StateId, sym: Symbol, done: set<StateId>,
                  to: StateId, m: map<StateId, StateId>)
    requires done <= m.Keys && to in m
    ensures es + FanOut(from, sym, done + {to}, m) == es + FanOut(from, sym, done, m) + {(from, sym, m[to])}
    ensures alphabet + EdgeChars(FanOut(from, sym, done + {to}, m))
         == alphabet + EdgeChars(FanOut(from, sym, done, m)) + SymbolChars(sym)
  {
    FanOutStep(from, sym, done, to, m);
    UnionAssoc(es, FanOut(from, sym, done, m), {(from, sym, m[to])});
    UnionAssoc(alphabet, EdgeChars(FanOut(from, sym, done, m)), SymbolChars(sym));
  }

  /** The inner loop `for &to in to_states { nfa.add_transition(from, symbol,
      map[&to]) }`: one edge per renumbered target, nothing else. */
  method CopyTargets(n: Nfa, from: StateId, sym: Symbol, targets: set<StateId>, m: map<StateId, StateId>)
    returns (r: Nfa)
    requires targets <= m.Keys
    ensures Edges(r.transitions) == Edges(n.transitions) + FanOut(from, sym, targets, m)
    ensures r.alphabet == n.alphabet + EdgeChars(FanOut(from, sym, targets, m))
    ensures NoEmptyTargets(n.transitions) ==> NoEmptyTargets(r.transitions)
    ensures r == n.(transitions := r.transitions, alphabet := r.alphabet)
  {
    r := n;
    var rest := targets;
    ghost var done := {};
    assert FanOut(from, sym, done, m) == {};
    while rest != {}
      invariant rest <= targets && done == targets - rest
      invariant Edges(r.transitions) == Edges(n.transitions) + FanOut(from, sym, done, m)
      invariant r.alphabet == n.alphabet + EdgeChars(FanOut(from, sym, done, m))
      invariant NoEmptyTargets(n.transitions) ==> NoEmptyTargets(r.transitions)
      invariant r == n.(transitions := r.transitions, alphabet := r.alphabet)
      decreases rest
    {
      var to :| to in rest;
      r := AddEdge(r, from, sym, m[to]);
      FanOutAdd(Edges(n.transitions), n.alphabet, from, sym, done, to, m);
      done := done + {to};
      rest := rest - {to};
    }
  }

  lemma RenumEdgesOnStep(t: Transitions, m: map<StateId, StateId>, keys: set<Key>, k: Key)
    requires k in t && t[k] <= m.Keys && k.0 in m
    ensures RenumEdgesOn(t, m, keys + {k}) == RenumEdgesOn(t, m, keys) + FanOut(m[k.0], k.1, t[k], m)
    ensures EdgeChars(RenumEdgesOn(t, m, keys + {k}))
         == EdgeChars(RenumEdgesOn(t, m, keys)) + EdgeChars(FanOut(m[k.0], k.1, t[k], m))
  {
    forall to | to in t[k] ensures (m[k.0], k.1, m[to]) in RenumEdgesOn(t, m, keys + {k}) {
      assert (k.0, k.1, to) in Edges(t);
    }
    EdgeCharsUnion(RenumEdgesOn(t, m, keys), FanOut(m[k.0], k.1, t[k], m));
  }

  /** A key without targets contributes no edge. */
  lemma RenumEdgesOnEmpty(t: Transitions, m: map<StateId, StateId>, keys: set<Key>, k: Key)
    requires k in t && t[k] == {}
    ensures RenumEdgesOn(t, m, keys + {k}) == RenumEdgesOn(t, m, keys)
  {
  }

  lemma EdgeCharsOfRenum(t: Transitions, m: map<StateId, StateId>)
    requires forall e | e in Edges(t) :: e.0 in m && e.2 in m
    ensures EdgeChars(RenumEdges(t, m)) == EdgeChars(Edges(t))
  {
    forall c | c in EdgeChars(Edges(t)) ensures c in EdgeChars(RenumEdges(t, m)) {
      var e :| e in Edges(t) && c in SymbolChars(e.1);
      assert (m[e.0], e.1, m[e.2]) in RenumEdges(t, m);
    }
  }

  /** The endpoints of the edges under key `k` are all renumbered. */
  lemma KeyInDomain(t: Transitions, m: map<StateId, StateId>, k: Key)
    requires k in t && t[k] != {}
    requires forall e | e in Edges(t) :: e.0 in m && e.2 in m
    ensures t[k] <= m.Keys && k.0 in m
  {
    var to :| to in t[k];
    assert (k.0, k.1, to) in Edges(t);
    forall y | y in t[k] ensures y in m {
      assert (k.0, k.1, y) in Edges(t);
    }
  }

  lemma RenumEdgesOnAll(t: Transitions, m: map<StateId, StateId>)
    requires forall e | e in Edges(t) :: e.0 in m && e.2 in m
    ensures RenumEdgesOn(t, m, t.Keys) == RenumEdges(t, m)
    ensures EdgeChars(RenumEdgesOn(t, m, t.Keys)) == EdgeChars(Edges(t))
  {
    EdgeCharsOfRenum(t, m);
  }

  /** The nested loop `for ((from, symbol), to_states) in &src.transitions {
      for &to in to_states { nfa.add_transition(map[from], symbol, map[&to]) }
      }`: the edges of `src`, renumbered, are added and nothing else. */
  method CopyTransitions(n: Nfa, src: Nfa, m: map<StateId, StateId>) returns (r: Nfa)
    requires forall e | e in Edges(src.transitions) :: e.0 in m && e.2 in m
    ensures Edges(r.transitions) == Edges(n.transitions) + RenumEdges(src.transitions, m)
    ensures r.alphabet == n.alphabet + EdgeChars(Edges(src.transitions))
    ensures NoEmptyTargets(n.transitions) ==> NoEmptyTargets(r.transitions)
    ensures r == n.(transitions := r.transitions, alphabet := r.alphabet)
  {
    var t := src.transitions;
    r := n;
    var keys := t.Keys;
    ghost var done := {};
    assert RenumEdgesOn(t, m, done) == {};
    while keys != {}
      invariant keys <= t.Keys && done == t.Keys - keys
      invariant Edges(r.transitions) == Edges(n.transitions) + RenumEdgesOn(t, m, done)
      invariant r.alphabet == n.alphabet + EdgeChars(RenumEdgesOn(t, m, done))
      invariant NoEmptyTargets(n.transitions) ==> NoEmptyTargets(r.transitions)
      invariant r == n.(transitions := r.transitions, alphabet := r.alphabet)
      decreases keys
    {
      var k :| k in keys;
      if t[k] != {} {
        KeyInDomain(t, m, k);
        r := CopyTargets(r, m[k.0], k.1, t[k], m);
        RenumEdgesOnStep(t, m, done, k);
        UnionAssoc(Edges(n.transitions), RenumEdgesOn(t, m, done), FanOut(m[k.0], k.1, t[k], m));
        UnionAssoc(n.alphabet, EdgeChars(RenumEdgesOn(t, m, done)), EdgeChars(FanOut(m[k.0], k.1, t[k], m)));
      } else {
        RenumEdgesOnEmpty(t, m, done, k);
      }
      done := done + {k};
      keys := keys - {k};
    }
    RenumEdgesOnAll(t, m);
  }

  // ---------------------------------------------------------------------
  // The loops over final states
  // ---------------------------------------------------------------------

  /** The two ε-edges out of `from` that `union`, `kleene` and `optional`
      add. */
  ghost function Forks(from: StateId, to1: StateId, to2: StateId): set<Edge>
  {
    {(from, Epsilon, to1), (from, Epsilon, to2)}
  }

  /** The ε-edges from the renumbered states of `srcs` to `to`. */
  ghost function LinkEdges(srcs: set<StateId>, m: map<StateId, StateId>, to: StateId): set<Edge>
    requires srcs <= m.Keys
  {
    set f: StateId | f in srcs :: (m[f], Epsilon, to)
  }

  lemma LinkEdgesStep(done: set<StateId>, f: StateId, m: map<StateId, StateId>, to: StateId)
    requires done <= m.Keys && f in m
    ensures LinkEdges(done + {f}, m, to) == LinkEdges(done, m, to) + {(m[f], Epsilon, to)}
  {
  }

  /** `for &f in finals { nfa.add_transition(map[&f], Symbol::Epsilon, to) }`. */
  method LinkFinals(n: Nfa, finals: set<StateId>, m: map<StateId, StateId>, to: StateId) returns (r: Nfa)
    requires finals <= m.Keys
    ensures Edges(r.transitions) == Edges(n.transitions) + LinkEdges(finals, m, to)
    ensures NoEmptyTargets(n.transitions) ==> NoEmptyTargets(r.transitions)
    ensures r == n.(transitions := r.transitions)
  {
    r := n;
    var rest := finals;
    ghost var done := {};
    assert LinkEdges(done, m, to) == {};
    while rest != {}
      invariant rest <= finals && done == finals - rest
      invariant Edges(r.transitions) == Edges(n.transitions) + LinkEdges(done, m, to)
      invariant NoEmptyTargets(n.transitions) ==> NoEmptyTargets(r.transitions)
      invariant r == n.(transitions := r.transitions)
      decreases rest
    {
      var f :| f in rest;
      r := AddEpsilon(r, m[f], to);
      LinkEdgesStep(done, f, m, to);
      UnionAssoc(Edges(n.transitions), LinkEdges(done, m, to), {(m[f], Epsilon, to)});
      done := done + {f};
      rest := rest - {f};
    }
  }

  /** `for &f in finals { nfa.final_states.insert(map[&f]) }`. */
  method AddFinals(n: Nfa, finals: set<StateId>, m: map<StateId, StateId>) returns (r: Nfa)
    requires finals <= m.Keys
    ensures r == n.(finals := n.finals + Image(finals, m))
  {
    r := n;
    var rest := finals;
    while rest != {}
      invariant rest <= finals
      invariant r == n.(finals := n.finals + Image(finals - rest, m))
      decreases rest
    {
      var f :| f in rest;
      r := r.(finals := r.finals + {m[f]});
      assert Image(finals - (rest - {f}), m) == Image(finals - rest, m) + {m[f]};
      rest := rest - {f};
    }
  }

  /** The last loop of `concat`: each final state of the second operand
      becomes final, and its action is inserted again under its new id, where
      the copying loop has already put the same action. */
  method MarkConcatFinals(n: Nfa, finals: set<StateId>, m: map<StateId, StateId>, acts: map<StateId, Action>)
    returns (r: Nfa)
    requires finals <= m.Keys
    requires forall f | f in finals && f in acts :: m[f] in n.actions && n.actions[m[f]] == acts[f]
    ensures r == n.(finals := n.finals + Image(finals, m))
  {
    r := n;
    var rest := finals;
    while rest != {}
      invariant rest <= finals
      invariant r == n.(finals := n.finals + Image(finals - rest, m))
      decreases rest
    {
      var f :| f in rest;
      r := r.(finals := r.finals + {m[f]});
      if f in acts {
        r := AddAction(r, m[f], acts[f]);
        assert r.actions == n.actions;
      }
      assert Image(finals - (rest - {f}), m) == Image(finals - rest, m) + {m[f]};
      rest := rest - {f};
    }
  }

  // ---------------------------------------------------------------------
  // Assembling a result
  // ---------------------------------------------------------------------

  /** The automaton over the dense ids 0..k-1 whose edges are `es`. */
  function Assemble(k: nat, alphabet: set<char>, es: set<Edge>, start: StateId,
                          finals: set<StateId>, actions: map<StateId, Action>): Nfa
  {
    Nfa(Range(k), alphabet, FromEdges(es), start, finals, actions)
  }

  /** An arena over 0..k-1 without empty successor sets is the assembly of
      its own edges. */
  lemma Assembled(r: Nfa, k: nat, es: set<Edge>)
    requires r.states == Range(k) && NoEmptyTargets(r.transitions) && Edges(r.transitions) == es
    ensures r == Assemble(k, r.alphabet, es, r.start, r.finals, r.actions)
  {
    FromEdgesOfEdges(r.transitions);
  }

  // ---------------------------------------------------------------------
  // concat
  // ---------------------------------------------------------------------

  /** What `concat(a, b)` builds: `a`'s states renumbered to 0..|a|-1 and
      `b`'s to |a|..|a|+|b|-1, both edge sets copied, an ε-edge from every
      final state of `a` to the start of `b`, `a`'s start, `b`'s final
      states, the actions of both operands and the union of the alphabets. */
  ghost function ConcatOf(a: Nfa, b: Nfa): Nfa
    requires Valid(a) && Valid(b)
  {
    Assemble(|a.states| + |b.states|,
             EdgeChars(Edges(a.transitions)) + EdgeChars(Edges(b.transitions)) + a.alphabet + b.alphabet,
             ConcatEdgeSet(a, b),
             Renum(a.states, 0)[a.start],
             Image(b.finals, Renum(b.states, |a.states|)),
             RenumActions(a.actions, a.states, 0) + RenumActions(b.actions, b.states, |a.states|))
  }

  /** The edges of `concat(a, b)`: both operands' edges, renumbered, and the
      ε-links from `a`'s final states to `b`'s start. */
  ghost function ConcatEdgeSet(a: Nfa, b: Nfa): set<Edge>
    requires Valid(a) && Valid(b)
  {
    var ma := Renum(a.states, 0);
    var mb := Renum(b.states, |a.states|);
    RenumEdges(a.transitions, ma) + RenumEdges(b.transitions, mb) + LinkEdges(a.finals, ma, mb[b.start])
  }

  /** After both copies of `concat`, every final state of the second operand
      that has an action already carries it under its new id. */
  lemma ConcatFinalActions(a: Nfa, b: Nfa, acts: map<StateId, Action>)
    requires b.finals <= b.states
    requires acts == RenumActions(a.actions, a.states, 0) + RenumActions(b.actions, b.states, |a.states|)
    ensures forall f | f in b.finals && f in b.actions ::
      Renum(b.states, |a.states|)[f] in acts && acts[Renum(b.states, |a.states|)[f]] == b.actions[f]
  {
    RenumActionsAt(b.actions, b.states, |a.states|);
  }

  lemma MergeEmpty<K, V>(m: map<K, V>)
    ensures map[] + m == m
  {
  }

  lemma EdgesOfEmpty()
    ensures Edges(map[]) == {}
  {
  }

  /** The two copying loops of `concat`, and the start state. */
  method ConcatStates(a: Nfa, b: Nfa) returns (r: Nfa, ma: map<StateId, StateId>, mb: map<StateId, StateId>)
    requires a.start in a.states
    ensures ma == Renum(a.states, 0) && mb == Renum(b.states, |a.states|)
    ensures r == Nfa(Range(|a.states| + |b.states|), {}, map[], ma[a.start], {},
                     RenumActions(a.actions, a.states, 0) + RenumActions(b.actions, b.states, |a.states|))
  {
    assert Default.actions == map[] && |Default.states| == 0;
    r, ma := CopyStates(Default, a.states, a.actions);
    MergeEmpty(RenumActions(a.actions, a.states, 0));
    assert r.actions == RenumActions(a.actions, a.states, 0);
    assert |r.states| == |a.states|;
    r, mb := CopyStates(r, b.states, b.actions);
    r := r.(start := ma[a.start]);
  }

  /** The edge-copying loops of `concat` and the ε-links between the
      operands. */
  method ConcatEdges(n: Nfa, a: Nfa, b: Nfa, ma: map<StateId, StateId>, mb: map<StateId, StateId>)
    returns (r: Nfa)
    requires Valid(a) && Valid(b) && ma == Renum(a.states, 0) && mb == Renum(b.states, |a.states|)
    requires n.transitions == map[] && n.alphabet == {}
    ensures Edges(r.transitions) == ConcatEdgeSet(a, b)
    ensures NoEmptyTargets(r.transitions)
    ensures r.alphabet == EdgeChars(Edges(a.transitions)) + EdgeChars(Edges(b.transitions))
    ensures r == n.(transitions := r.transitions, alphabet := r.alphabet)
  {
    EdgesOfEmpty();
    r := CopyTransitions(n, a, ma);
    r := CopyTransitions(r, b, mb);
    r := LinkFinals(r, a.finals, ma, mb[b.start]);
  }

  /** `concat`. */
  method Concat(a: Nfa, b: Nfa) returns (r: Nfa)
    requires Valid(a) && Valid(b)
    ensures r == ConcatOf(a, b)
  {
    var ma, mb;
    r, ma, mb := ConcatStates(a, b);
    r := ConcatEdges(r, a, b, ma, mb);
    ConcatFinalActions(a, b, r.actions);
    r := MarkConcatFinals(r, b.finals, mb, b.actions);
    r := r.(alphabet := r.alphabet + a.alphabet + b.alphabet);
    Assembled(r, |a.states| + |b.states|, ConcatEdgeSet(a, b));
  }

  // ---------------------------------------------------------------------
  // union
  // ---------------------------------------------------------------------

  /** What `union(a, b)` builds: a fresh start 0 with ε-edges to the
      renumbered starts of `a` (ids 1..|a|) and `b` (ids |a|+1..|a|+|b|),
      both edge sets copied, the final states and actions of both operands
      and the union of the alphabets. */
  ghost function UnionOf(a: Nfa, b: Nfa): Nfa
    requires Valid(a) && Valid(b)
  {
    Assemble(1 + |a.states| + |b.states|,
             EdgeChars(Edges(a.transitions)) + EdgeChars(Edges(b.transitions)) + a.alphabet + b.alphabet,
             UnionEdgeSet(a, b),
             0,
             Image(a.finals, Renum(a.states, 1)) + Image(b.finals, Renum(b.states, 1 + |a.states|)),
             RenumActions(a.actions, a.states, 1) + RenumActions(b.actions, b.states, 1 + |a.states|))
  }

  /** The edges of `union(a, b)`: the two ε-edges out of the fresh start and
      both operands' edges, renumbered. */
  ghost function UnionEdgeSet(a: Nfa, b: Nfa): set<Edge>
    requires Valid(a) && Valid(b)
  {
    var ma := Renum(a.states, 1);
    var mb := Renum(b.states, 1 + |a.states|);
    Forks(0, ma[a.start], mb[b.start]) + RenumEdges(a.transitions, ma) + RenumEdges(b.transitions, mb)
  }

  /** The fresh start state of `union`, `kleene` and `optional`: id 0 in an
      empty arena. */
  method FreshStart() returns (r: Nfa)
    ensures r == Default.(states := Range(1), start := 0)
  {
    var start;
    r, start := AddState(Default);
    r := r.(start := start);
  }

  /** The start state and the two copying loops of `union`. */
  method UnionStates(a: Nfa, b: Nfa) returns (r: Nfa, ma: map<StateId, StateId>, mb: map<StateId, StateId>)
    ensures ma == Renum(a.states, 1) && mb == Renum(b.states, 1 + |a.states|)
    ensures r == Nfa(Range(1 + |a.states| + |b.states|), {}, map[], 0, {},
                     RenumActions(a.actions, a.states, 1) + RenumActions(b.actions, b.states, 1 + |a.states|))
  {
    r := FreshStart();
    RangeSize(1);
    r, ma := CopyStates(r, a.states, a.actions);
    MergeEmpty(RenumActions(a.actions, a.states, 1));
    assert r.actions == RenumActions(a.actions, a.states, 1);
    assert |r.states| == 1 + |a.states|;
    r, mb := CopyStates(r, b.states, b.actions);
  }

  /** The ε-edges out of the fresh start and the edge-copying loops of
      `union`. */
  method UnionEdges(n: Nfa, a: Nfa, b: Nfa, ma: map<StateId, StateId>, mb: map<StateId, StateId>)
    returns (r: Nfa)
    requires Valid(a) && Valid(b) && ma == Renum(a.states, 1) && mb == Renum(b.states, 1 + |a.states|)
    requires n.transitions == map[] && n.alphabet == {}
    ensures Edges(r.transitions) == UnionEdgeSet(a, b)
    ensures NoEmptyTargets(r.transitions)
    ensures r.alphabet == EdgeChars(Edges(a.transitions)) + EdgeChars(Edges(b.transitions))
    ensures r == n.(transitions := r.transitions, alphabet := r.alphabet)
  {
    EdgesOfEmpty();
    r := AddEpsilon(n, 0, ma[a.start]);
    r := AddEpsilon(r, 0, mb[b.start]);
    assert Edges(r.transitions) == Forks(0, ma[a.start], mb[b.start]);
    r := CopyTransitions(r, a, ma);
    r := CopyTransitions(r, b, mb);
  }

  /** `union`. */
  method Union(a: Nfa, b: Nfa) returns (r: Nfa)
    requires Valid(a) && Valid(b)
    ensures r == UnionOf(a, b)
  {
    var ma, mb;
    r, ma, mb := UnionStates(a, b);
    r := UnionEdges(r, a, b, ma, mb);
    r := AddFinals(r, a.finals, ma);
    r := AddFinals(r, b.finals, mb);
    r := r.(alphabet := r.alphabet + a.alphabet + b.alphabet);
    assert r.finals == Image(a.finals, ma) + Image(b.finals, mb);
    Assembled(r, 1 + |a.states| + |b.states|, UnionEdgeSet(a, b));
  }

  // ---------------------------------------------------------------------
  // kleene and optional
  // ---------------------------------------------------------------------

  /** The fresh start state and the copying loop of `kleene` and
      `optional`, which carry no action over (the copy is given none). */
  method WrapStates(inner: Nfa) returns (r: Nfa, m: map<StateId, StateId>)
    ensures m == Renum(inner.states, 1)
    ensures r == Default.(states := Range(1 + |inner.states|), start := 0)
  {
    r := FreshStart();
    RangeSize(1);
    r, m := CopyStates(r, inner.states, map[]);
    NoActionsToCopy(inner.states, 1);
  }

  /** Copying with no actions adds none. */
  lemma NoActionsToCopy(s: set<StateId>, offset: nat)
    ensures RenumActions(map[], s, offset) == map[]
  {
  }

  /** The fresh final state `end` of `kleene` and `optional`: the next id,
      made the only final state. */
  method WrapEnd(n: Nfa, k: nat) returns (r: Nfa, end: StateId)
    requires n.states == Range(k) && n.finals == {}
    ensures end == k
    ensures r == n.(states := Range(k + 1), finals := {end})
  {
    r, end := AddState(n);
    NextIdOfRange(k, end);
    r := r.(finals := r.finals + {end});
  }

  /** The last loop of `kleene`: from every renumbered final state of the
      operand, an ε-edge back to its start and one to `end`. */
  method KleeneLinks(n: Nfa, finals: set<StateId>, m: map<StateId, StateId>, back: StateId, end: StateId)
    returns (r: Nfa)
    requires finals <= m.Keys
    ensures Edges(r.transitions) == Edges(n.transitions) + LinkEdges(finals, m, back) + LinkEdges(finals, m, end)
    ensures NoEmptyTargets(n.transitions) ==> NoEmptyTargets(r.transitions)
    ensures r == n.(transitions := r.transitions)
  {
    r := n;
    var rest := finals;
    ghost var done := {};
    assert LinkEdges(done, m, back) == {} && LinkEdges(done, m, end) == {};
    while rest != {}
      invariant rest <= finals && done == finals - rest
      invariant Edges(r.transitions) == Edges(n.transitions) + LinkEdges(done, m, back) + LinkEdges(done, m, end)
      invariant NoEmptyTargets(n.transitions) ==> NoEmptyTargets(r.transitions)
      invariant r == n.(transitions := r.transitions)
      decreases rest
    {
      var f :| f in rest;
      r := AddEpsilon(r, m[f], back);
      r := AddEpsilon(r, m[f], end);
      KleeneLinkStep(Edges(n.transitions), done, f, m, back, end);
      done := done + {f};
      rest := rest - {f};
    }
  }

  lemma KleeneLinkStep(es: set<Edge>, done: set<StateId>, f: StateId, m: map<StateId, StateId>, back: StateId, end: StateId)
    requires done <= m.Keys && f in m
    ensures es + LinkEdges(done + {f}, m, back) + LinkEdges(done + {f}, m, end)
         == es + LinkEdges(done, m, back) + LinkEdges(done, m, end) + {(m[f], Epsilon, back)} + {(m[f], Epsilon, end)}
  {
    LinkEdgesStep(done, f, m, back);
    LinkEdgesStep(done, f, m, end);
    LinkPairStep(es, LinkEdges(done, m, back), LinkEdges(done, m, end), (m[f], Epsilon, back), (m[f], Epsilon, end));
  }

  /** What `kleene(inner)` builds: a fresh start 0, the operand at ids
      1..|inner|, a fresh final `end` = |inner|+1, ε-edges start→inner
      start, start→end, and from every inner final state back to the inner
      start and on to `end`; no action survives. */
  ghost function KleeneOf(inner: Nfa): Nfa
    requires Valid(inner)
  {
    Assemble(|inner.states| + 2, EdgeChars(Edges(inner.transitions)) + inner.alphabet,
             KleeneEdgeSet(inner), 0, {|inner.states| + 1}, map[])
  }

  /** The edges of `kleene(inner)`, `end` being |inner| + 1. */
  ghost function KleeneEdgeSet(inner: Nfa): set<Edge>
    requires Valid(inner)
  {
    var m := Renum(inner.states, 1);
    var end := |inner.states| + 1;
    RenumEdges(inner.transitions, m) + Forks(0, m[inner.start], end)
      + LinkEdges(inner.finals, m, m[inner.start]) + LinkEdges(inner.finals, m, end)
  }

  /** The edges of `kleene`, once the operand's states are copied. */
  method KleeneEdges(n: Nfa, inner: Nfa, m: map<StateId, StateId>) returns (r: Nfa, end: StateId)
    requires Valid(inner) && m == Renum(inner.states, 1)
    requires n == Default.(states := Range(1 + |inner.states|), start := 0)
    ensures end == |inner.states| + 1
    ensures Edges(r.transitions) == KleeneEdgeSet(inner)
    ensures NoEmptyTargets(r.transitions)
    ensures r.alphabet == EdgeChars(Edges(inner.transitions))
    ensures r == n.(states := Range(|inner.states| + 2), transitions := r.transitions, alphabet := r.alphabet, finals := {end})
  {
    EdgesOfEmpty();
    r := CopyTransitions(n, inner, m);
    assert Edges(r.transitions) == RenumEdges(inner.transitions, m);
    r, end := WrapEnd(r, 1 + |inner.states|);
    r := AddEpsilon(r, 0, m[inner.start]);
    r := AddEpsilon(r, 0, end);
    assert Edges(r.transitions) == RenumEdges(inner.transitions, m) + Forks(0, m[inner.start], end);
    r := KleeneLinks(r, inner.finals, m, m[inner.start], end);
  }

  /** `kleene`. */
  method Kleene(inner: Nfa) returns (r: Nfa)
    requires Valid(inner)
    ensures r == KleeneOf(inner)
  {
    var m, end;
    r, m := WrapStates(inner);
    r, end := KleeneEdges(r, inner, m);
    r := r.(alphabet := r.alphabet + inner.alphabet);
    Assembled(r, |inner.states| + 2, KleeneEdgeSet(inner));
  }

  /** What `optional(inner)` builds: as `kleene`, but without the edges back
      to the operand's start (start→end, start→inner start, every inner
      final→end); no action survives. */
  ghost function OptionalOf(inner: Nfa): Nfa
    requires Valid(inner)
  {
    Assemble(|inner.states| + 2, EdgeChars(Edges(inner.transitions)) + inner.alphabet,
             OptionalEdgeSet(inner), 0, {|inner.states| + 1}, map[])
  }

  /** The edges of `optional(inner)`, `end` being |inner| + 1. */
  ghost function OptionalEdgeSet(inner: Nfa): set<Edge>
    requires Valid(inner)
  {
    var m := Renum(inner.states, 1);
    var end := |inner.states| + 1;
    RenumEdges(inner.transitions, m) + Forks(0, end, m[inner.start]) + LinkEdges(inner.finals, m, end)
  }

  /** The end state and the edges of `optional`, once the operand's states
      are copied. */
  method OptionalEdges(n: Nfa, inner: Nfa, m: map<StateId, StateId>) returns (r: Nfa, end: StateId)
    requires Valid(inner) && m == Renum(inner.states, 1)
    requires n == Default.(states := Range(1 + |inner.states|), start := 0)
    ensures end == |inner.states| + 1
    ensures Edges(r.transitions) == OptionalEdgeSet(inner)
    ensures NoEmptyTargets(r.transitions)
    ensures r.alphabet == EdgeChars(Edges(inner.transitions))
    ensures r == n.(states := Range(|inner.states| + 2), transitions := r.transitions, alphabet := r.alphabet, finals := {end})
  {
    EdgesOfEmpty();
    r, end := WrapEnd(n, 1 + |inner.states|);
    r := CopyTransitions(r, inner, m);
    assert Edges(r.transitions) == RenumEdges(inner.transitions, m);
    r := AddEpsilon(r, 0, end);
    r := AddEpsilon(r, 0, m[inner.start]);
    assert Edges(r.transitions) == RenumEdges(inner.transitions, m) + Forks(0, end, m[inner.start]);
    r := LinkFinals(r, inner.finals, m, end);
  }

  /** `optional`. */
  method Optional(inner: Nfa) returns (r: Nfa)
    requires Valid(inner)
    ensures r == OptionalOf(inner)
  {
    var m, end;
    r, m := WrapStates(inner);
    r, end := OptionalEdges(r, inner, m);
    r := r.(alphabet := r.alphabet + inner.alphabet);
    Assembled(r, |inner.states| + 2, OptionalEdgeSet(inner));
  }

  // ---------------------------------------------------------------------
  // plus
  // ---------------------------------------------------------------------

  /** `plus(inner)`: the operand followed by its Kleene star. */
  ghost function PlusOf(inner: Nfa): Nfa
    requires Valid(inner)
  {
    KleeneWellFormed(inner);
    ConcatOf(inner, KleeneOf(inner))
  }

  /** `plus`. */
  method Plus(inner: Nfa) returns (r: Nfa)
    requires Valid(inner)
    ensures r == PlusOf(inner)
  {
    var kleenePart := Kleene(inner);
    KleeneWellFormed(inner);
    r := Concat(inner, kleenePart);
  }


  // ---------------------------------------------------------------------
  // Well-formedness of the combinators' results
  // ---------------------------------------------------------------------

  /** An automaton over the dense ids 0..k-1 whose transition map is built
      from an edge set inside that range is well formed. */
  lemma WellFormedOfParts(n: Nfa, k: nat, es: set<Edge>)
    requires n.states == Range(k) && n.transitions == FromEdges(es)
    requires n.start < k && forall f | f in n.finals :: f < k
    requires forall e | e in es :: e.0 < k && e.2 < k
    requires EdgeChars(es) <= n.alphabet
    requires forall x | x in n.actions :: x < k
    ensures WellFormed(n)
  {
    EdgesOfFromEdges(es);
    RangeSize(k);
  }

  /** A renumbered state lies in the new id range. */
  lemma RenumWithin(s: set<StateId>, offset: nat, x: StateId)
    requires x in s
    ensures offset <= Renum(s, offset)[x] < offset + |s|
  {
    RankBound(s, x);
  }

  /** The renumbered members of `x` lie in the new id range of `s`. */
  lemma ImageWithin(x: set<StateId>, s: set<StateId>, offset: nat)
    requires x <= s
    ensures forall y | y in Image(x, Renum(s, offset)) :: offset <= y < offset + |s|
  {
    forall y | y in x ensures offset <= Renum(s, offset)[y] < offset + |s| {
      RenumWithin(s, offset, y);
    }
  }

  /** The renumbered edges of a valid operand lie in the operand's new id
      range. */
  lemma RenumEdgesWithin(t: Transitions, s: set<StateId>, offset: nat)
    requires forall e | e in Edges(t) :: e.0 in s && e.2 in s
    ensures forall e | e in RenumEdges(t, Renum(s, offset)) ::
      offset <= e.0 < offset + |s| && offset <= e.2 < offset + |s|
  {
    forall e | e in Edges(t) ensures offset <= Renum(s, offset)[e.0] < offset + |s| && offset <= Renum(s, offset)[e.2] < offset + |s| {
      RenumWithin(s, offset, e.0);
      RenumWithin(s, offset, e.2);
    }
  }

  /** The ε-links out of renumbered states start in the new id range. */
  lemma LinkEdgesWithin(srcs: set<StateId>, s: set<StateId>, offset: nat, to: StateId)
    requires srcs <= s
    ensures forall e | e in LinkEdges(srcs, Renum(s, offset), to) :: offset <= e.0 < offset + |s| && e.2 == to
  {
    forall f | f in srcs ensures offset <= Renum(s, offset)[f] < offset + |s| {
      RenumWithin(s, offset, f);
    }
  }

  /** The moved actions sit on ids of the new range. */
  lemma RenumActionsWithin(acts: map<StateId, Action>, s: set<StateId>, offset: nat)
    ensures forall k | k in RenumActions(acts, s, offset) :: offset <= k < offset + |s|
  {
    forall k | k in RenumActions(acts, s, offset) ensures offset <= k < offset + |s| {
      RenumActionsKey(acts, s, offset, k);
      var x :| x in s && Renum(s, offset)[x] == k;
      RenumWithin(s, offset, x);
    }
  }

  /** ε-links consume no character. */
  lemma LinkEdgesChars(srcs: set<StateId>, m: map<StateId, StateId>, to: StateId)
    requires srcs <= m.Keys
    ensures EdgeChars(LinkEdges(srcs, m, to)) == {}
  {
  }

  lemma ForksChars(from: StateId, to1: StateId, to2: StateId)
    ensures EdgeChars(Forks(from, to1, to2)) == {}
  {
  }

  lemma ConcatEdgesWithin(a: Nfa, b: Nfa)
    requires Valid(a) && Valid(b)
    ensures forall e | e in ConcatEdgeSet(a, b) :: e.0 < |a.states| + |b.states| && e.2 < |a.states| + |b.states|
  {
    RenumEdgesWithin(a.transitions, a.states, 0);
    RenumEdgesWithin(b.transitions, b.states, |a.states|);
    LinkEdgesWithin(a.finals, a.states, 0, Renum(b.states, |a.states|)[b.start]);
    RenumWithin(b.states, |a.states|, b.start);
  }

  lemma ConcatEdgeChars(a: Nfa, b: Nfa)
    requires Valid(a) && Valid(b)
    ensures EdgeChars(ConcatEdgeSet(a, b)) == EdgeChars(Edges(a.transitions)) + EdgeChars(Edges(b.transitions))
  {
    var ma, mb := Renum(a.states, 0), Renum(b.states, |a.states|);
    var ea, eb, links := RenumEdges(a.transitions, ma), RenumEdges(b.transitions, mb), LinkEdges(a.finals, ma, mb[b.start]);
    EdgeCharsOfRenum(a.transitions, ma);
    EdgeCharsOfRenum(b.transitions, mb);
    LinkEdgesChars(a.finals, ma, mb[b.start]);
    EdgeCharsUnion(ea, eb);
    EdgeCharsUnion(ea + eb, links);
  }

  /** `concat` of valid automata is well formed. */
  lemma ConcatWellFormed(a: Nfa, b: Nfa)
    requires Valid(a) && Valid(b)
    ensures WellFormed(ConcatOf(a, b))
  {
    ConcatEdgesWithin(a, b);
    ConcatEdgeChars(a, b);
    RenumWithin(a.states, 0, a.start);
    ImageWithin(b.finals, b.states, |a.states|);
    RenumActionsWithin(a.actions, a.states, 0);
    RenumActionsWithin(b.actions, b.states, |a.states|);
    WellFormedOfParts(ConcatOf(a, b), |a.states| + |b.states|, ConcatEdgeSet(a, b));
  }

  lemma UnionEdgesWithin(a: Nfa, b: Nfa)
    requires Valid(a) && Valid(b)
    ensures forall e | e in UnionEdgeSet(a, b) :: e.0 < 1 + |a.states| + |b.states| && e.2 < 1 + |a.states| + |b.states|
  {
    RenumEdgesWithin(a.transitions, a.states, 1);
    RenumEdgesWithin(b.transitions, b.states, 1 + |a.states|);
    RenumWithin(a.states, 1, a.start);
    RenumWithin(b.states, 1 + |a.states|, b.start);
  }

  lemma UnionEdgeChars(a: Nfa, b: Nfa)
    requires Valid(a) && Valid(b)
    ensures EdgeChars(UnionEdgeSet(a, b)) == EdgeChars(Edges(a.transitions)) + EdgeChars(Edges(b.transitions))
  {
    var ma, mb := Renum(a.states, 1), Renum(b.states, 1 + |a.states|);
    var forks, ea, eb := Forks(0, ma[a.start], mb[b.start]), RenumEdges(a.transitions, ma), RenumEdges(b.transitions, mb);
    EdgeCharsOfRenum(a.transitions, ma);
    EdgeCharsOfRenum(b.transitions, mb);
    ForksChars(0, ma[a.start], mb[b.start]);
    EdgeCharsUnion(forks, ea);
    EdgeCharsUnion(forks + ea, eb);
  }

  /** `union` of valid automata is well formed. */
  lemma UnionWellFormed(a: Nfa, b: Nfa)
    requires Valid(a) && Valid(b)
    ensures WellFormed(UnionOf(a, b))
  {
    UnionEdgesWithin(a, b);
    UnionEdgeChars(a, b);
    ImageWithin(a.finals, a.states, 1);
    ImageWithin(b.finals, b.states, 1 + |a.states|);
    RenumActionsWithin(a.actions, a.states, 1);
    RenumActionsWithin(b.actions, b.states, 1 + |a.states|);
    WellFormedOfParts(UnionOf(a, b), 1 + |a.states| + |b.states|, UnionEdgeSet(a, b));
  }

  lemma KleeneEdgesWithin(inner: Nfa)
    requires Valid(inner)
    ensures forall e | e in KleeneEdgeSet(inner) :: e.0 < |inner.states| + 2 && e.2 < |inner.states| + 2
  {
    var m := Renum(inner.states, 1);
    RenumEdgesWithin(inner.transitions, inner.states, 1);
    RenumWithin(inner.states, 1, inner.start);
    LinkEdgesWithin(inner.finals, inner.states, 1, m[inner.start]);
    LinkEdgesWithin(inner.finals, inner.states, 1, |inner.states| + 1);
  }

  lemma KleeneEdgeChars(inner: Nfa)
    requires Valid(inner)
    ensures EdgeChars(KleeneEdgeSet(inner)) == EdgeChars(Edges(inner.transitions))
  {
    var m := Renum(inner.states, 1);
    var end := |inner.states| + 1;
    var ei, forks := RenumEdges(inner.transitions, m), Forks(0, m[inner.start], end);
    var back, out := LinkEdges(inner.finals, m, m[inner.start]), LinkEdges(inner.finals, m, end);
    EdgeCharsOfRenum(inner.transitions, m);
    ForksChars(0, m[inner.start], end);
    LinkEdgesChars(inner.finals, m, m[inner.start]);
    LinkEdgesChars(inner.finals, m, end);
    EdgeCharsUnion(ei, forks);
    EdgeCharsUnion(ei + forks, back);
    EdgeCharsUnion(ei + forks + back, out);
  }

  /** `kleene` of a valid automaton is well formed. */
  lemma KleeneWellFormed(inner: Nfa)
    requires Valid(inner)
    ensures WellFormed(KleeneOf(inner))
  {
    KleeneEdgesWithin(inner);
    KleeneEdgeChars(inner);
    WellFormedOfParts(KleeneOf(inner), |inner.states| + 2, KleeneEdgeSet(inner));
  }

  lemma OptionalEdgesWithin(inner: Nfa)
    requires Valid(inner)
    ensures forall e | e in OptionalEdgeSet(inner) :: e.0 < |inner.states| + 2 && e.2 < |inner.states| + 2
  {
    RenumEdgesWithin(inner.transitions, inner.states, 1);
    RenumWithin(inner.states, 1, inner.start);
    LinkEdgesWithin(inner.finals, inner.states, 1, |inner.states| + 1);
  }

  lemma OptionalEdgeChars(inner: Nfa)
    requires Valid(inner)
    ensures EdgeChars(OptionalEdgeSet(inner)) == EdgeChars(Edges(inner.transitions))
  {
    var m := Renum(inner.states, 1);
    var end := |inner.states| + 1;
    var ei, forks, out := RenumEdges(inner.transitions, m), Forks(0, end, m[inner.start]), LinkEdges(inner.finals, m, end);
    EdgeCharsOfRenum(inner.transitions, m);
    ForksChars(0, end, m[inner.start]);
    LinkEdgesChars(inner.finals, m, end);
    EdgeCharsUnion(ei, forks);
    EdgeCharsUnion(ei + forks, out);
  }

  /** `optional` of a valid automaton is well formed. */
  lemma OptionalWellFormed(inner: Nfa)
    requires Valid(inner)
    ensures WellFormed(OptionalOf(inner))
  {
    OptionalEdgesWithin(inner);
    OptionalEdgeChars(inner);
    WellFormedOfParts(OptionalOf(inner), |inner.states| + 2, OptionalEdgeSet(inner));
  }
}
