/** `RegexParser` (src/regex.rs): recursive descent over the characters of
    a pattern with a `pos` cursor, building the Thompson automaton as it
    goes.

    The grammar the parser reads is given twice. `ParseSeq`, `Postfix`,
    `ClassOf` and `ClassItems` read it into a `Patterns.Regex` tree, by
    recursion, without automata; the class `RegexParser` does what the
    crate does, moving its cursor and combining automata, and each of its
    methods is proved to build `NfaOf` of the tree the reference reading
    gives, to stop where it stops and to fail with the same message. */
module Regexes {
  import opened Base
  import opened Symbols
  import opened Nfas
  import opened Thompson
  import P = Patterns

  // ---------------------------------------------------------------------
  // The grammar, read into a tree
  // ---------------------------------------------------------------------

  /** The characters `parse_regex` lists as special; those it does not
      handle by an earlier arm and does not exempt are refused. */
  const Specials: string := "()[].*+?|\\"

  /** What `.` matches outside a class: ASCII except the newline. */
  const DotChars: set<char> := Ascii - {'\n'}

  function Code(c: char): int { c as int }

  /** The characters whose codes lie in the inclusive range `lo`..`hi`
      (`char::from_u32` over the codes; a Dafny `char` has no surrogate
      codes either). */
  function CharRange(lo: char, hi: char): (r: set<char>)
    ensures forall c: char :: c in r <==> lo <= c <= hi
  {
    set c: char | Code(lo) <= Code(c) <= Code(hi)
  }

  /** The tree after one more operand: `is_empty` on the automaton built
      so far picks the operand alone, otherwise it is concatenated. */
  function Join(acc: P.Regex, op: P.Regex): P.Regex
  {
    if acc == P.Empty then op else P.Concat(acc, op)
  }

  /** `parse_operators`: at most one postfix `*`, `+` or `?` applied to the
      operand `t`, and the position after it. */
  function Postfix(chars: seq<char>, pos: nat, t: P.Regex): (r: (P.Regex, nat))
    requires pos <= |chars|
    ensures r.1 <= |chars|
    ensures r.1 == pos || r.1 == pos + 1
    ensures r.1 == pos + 1 <==> pos < |chars| && chars[pos] in "*+?"
    ensures r.1 == pos ==> r.0 == t
    ensures r.1 == pos + 1 ==> r.0 in {P.Kleene(t), P.Plus(t), P.Option(t)}
  {
    if pos < |chars| then
      if chars[pos] == '*' then (P.Kleene(t), pos + 1)
      else if chars[pos] == '+' then (P.Plus(t), pos + 1)
      else if chars[pos] == '?' then (P.Option(t), pos + 1)
      else (t, pos)
    else (t, pos)
  }

  /** The loop of `parse_char_class` from `pos`, with the members `members`
      gathered so far: the members and the position of the closing `]`. */
  function ClassItems(chars: seq<char>, pos: nat, members: set<char>): (r: Result<(set<char>, nat)>)
    requires pos <= |chars|
    ensures r.Ok? ==> pos <= r.value.1 < |chars| && chars[r.value.1] == ']' && members <= r.value.0
    decreases |chars| - pos
  {
    if pos == |chars| then Err("Unterminated character class")
    else if chars[pos] == ']' then Ok((members, pos))
    else if pos + 2 < |chars| && chars[pos + 1] == '-' && chars[pos + 2] != ']' then
      if chars[pos] > chars[pos + 2] then Err("Invalid range: " + [chars[pos]] + "-" + [chars[pos + 2]])
      else ClassItems(chars, pos + 3, members + CharRange(chars[pos], chars[pos + 2]))
    else if chars[pos] == '\\' && pos + 1 < |chars| then ClassItems(chars, pos + 2, members + {chars[pos + 1]})
    else ClassItems(chars, pos + 1, members + {chars[pos]})
  }

  /** `parse_char_class` from just after the `[`: an optional `^`, the
      members, the closing `]`; a negated class holds the ASCII characters
      outside the members. */
  function ClassOf(chars: seq<char>, pos: nat): (r: Result<(P.Regex, nat)>)
    requires pos <= |chars|
    ensures r.Ok? ==> pos < r.value.1 <= |chars| && chars[r.value.1 - 1] == ']' && r.value.0.CharClass?
  {
    var negate := pos < |chars| && chars[pos] == '^';
    var items := ClassItems(chars, if negate then pos + 1 else pos, {});
    if items.Err? then Err(items.error)
    else
      var (members, end) := items.value;
      Ok((if negate then P.CharClass(Ascii - members) else P.CharClass(members), end + 1))
  }

  /** The trees the parser builds: no `Bounded`, `Dot` or
      `NegatedCharClass` node (a class or `.` becomes a `CharClass`). */
  predicate ParserTree(t: P.Regex)
  {
    match t
    case Empty => true
    case Char(_) => true
    case CharClass(_) => true
    case Concat(a, b) => ParserTree(a) && ParserTree(b)
    case Union(a, b) => ParserTree(a) && ParserTree(b)
    case Kleene(e) => ParserTree(e)
    case Option(e) => ParserTree(e)
    case Plus(e) => ParserTree(e)
    case _ => false
  }

  /** The operand a plain character stands for. */
  function Atom(c: char): P.Regex
  {
    if c == '.' then P.CharClass(DotChars) else P.Char(c)
  }

  /** A character `parse_regex` refuses as an operand. */
  predicate Refused(c: char)
  {
    c in Specials && c != '.' && c != '*' && c != '+' && c != '?'
  }

  /** `parse_regex` from `pos`, with the tree `acc` of what this level has
      read so far: the tree of the level and the position where it stops,
      which is the end of the input or a `)` left unconsumed. */
  function ParseSeq(chars: seq<char>, pos: nat, acc: P.Regex): (r: Result<(P.Regex, nat)>)
    requires pos <= |chars|
    ensures r.Ok? ==> pos <= r.value.1 <= |chars| && (r.value.1 == |chars| || chars[r.value.1] == ')')
    decreases |chars| - pos, 1
  {
    if pos == |chars| || chars[pos] == ')' then Ok((acc, pos))
    else if chars[pos] == '|' then
      var right := ParseSeq(chars, pos + 1, P.Empty);
      if right.Err? then right else Ok((P.Union(acc, right.value.0), right.value.1))
    else
      var op := Operand(chars, pos);
      if op.Err? then Err(op.error) else ParseSeq(chars, op.value.1, Join(acc, op.value.0))
  }

  /** One arm of the loop of `parse_regex` that reads an operand: a group,
      a class, an escaped or a plain character, each with its postfix
      operator; the operand and the position after it. */
  function Operand(chars: seq<char>, pos: nat): (r: Result<(P.Regex, nat)>)
    requires pos < |chars|
    ensures r.Ok? ==> pos < r.value.1 <= |chars|
    decreases |chars| - pos, 0
  {
    var c := chars[pos];
    if c == '(' then
      var inner := ParseSeq(chars, pos + 1, P.Empty);
      if inner.Err? then inner
      else if inner.value.1 >= |chars| || chars[inner.value.1] != ')' then Err("Unmatched parenthesis")
      else Ok(Postfix(chars, inner.value.1 + 1, inner.value.0))
    else if c == '[' then
      var cls := ClassOf(chars, pos + 1);
      if cls.Err? then cls else Ok(Postfix(chars, cls.value.1, cls.value.0))
    else if c == '\\' then
      if pos + 1 >= |chars| then Err("Escape at end of regex")
      else Ok(Postfix(chars, pos + 2, P.Char(chars[pos + 1])))
    else if Refused(c) then Err("Unescaped special character: " + [c])
    else Ok(Postfix(chars, pos + 1, Atom(c)))
  }

  /** `RegexParser::parse`: the empty pattern is `empty()`, anything else
      is read from position 0. */
  function ParseOf(regex: string): (r: Result<P.Regex>)
  {
    if regex == [] then Ok(P.Empty)
    else
      var level := ParseSeq(regex, 0, P.Empty);
      if level.Err? then Err(level.error) else Ok(level.value.0)
  }

  /** `ParseOf` with the check the crate leaves out: a level that stops
      at a `)` before the end of the pattern is an unmatched parenthesis,
      as it is for a `(` that is never closed. */
  function ParseAllOf(regex: string): (r: Result<P.Regex>)
  {
    if regex == [] then Ok(P.Empty)
    else
      var level := ParseSeq(regex, 0, P.Empty);
      if level.Err? then Err(level.error)
      else if level.value.1 < |regex| then Err("Unmatched parenthesis")
      else Ok(level.value.0)
  }

  // ---------------------------------------------------------------------
  // The automata of the trees the parser builds
  // ---------------------------------------------------------------------

  lemma PlusSize(x: Nfa)
    requires Valid(x)
    ensures |PlusOf(x).states| == 2 * |x.states| + 2
  {
    KleeneWellFormed(x);
    KleeneSize(x);
    ConcatSize(x, KleeneOf(x));
  }

  /** A leaf of the parser has the two states of a one-edge fragment, an
      inner node at least four. */
  lemma {:induction false} NfaOfSize(t: P.Regex)
    requires ParserTree(t)
    ensures |NfaOf(t).states| >= 2
    ensures !IsLeaf(t) ==> |NfaOf(t).states| >= 4
    decreases t, 2
  {
    match t
    case Empty => RangeSize(2);
    case Char(_) => RangeSize(2);
    case CharClass(_) => RangeSize(2);
    case Concat(a, b) => ConcatNodeSize(a, b);
    case Union(a, b) => UnionNodeSize(a, b);
    case Kleene(e) => KleeneNodeSize(e);
    case Option(e) => OptionNodeSize(e);
    case Plus(e) => PlusNodeSize(e);
  }

  lemma {:induction false} ConcatNodeSize(a: P.Regex, b: P.Regex)
    requires ParserTree(a) && ParserTree(b)
    ensures |ConcatNode(a, b).states| >= 4
    decreases P.Concat(a, b), 0
  {
    NfaOfSize(a);
    NfaOfSize(b);
    NfaOfWellFormed(a);
    NfaOfWellFormed(b);
    ConcatSize(NfaOf(a), NfaOf(b));
  }

  lemma {:induction false} UnionNodeSize(a: P.Regex, b: P.Regex)
    requires ParserTree(a) && ParserTree(b)
    ensures |UnionNode(a, b).states| >= 4
    decreases P.Union(a, b), 0
  {
    NfaOfSize(a);
    NfaOfSize(b);
    NfaOfWellFormed(a);
    NfaOfWellFormed(b);
    UnionSize(NfaOf(a), NfaOf(b));
  }

  lemma {:induction false} KleeneNodeSize(e: P.Regex)
    requires ParserTree(e)
    ensures |KleeneNode(e).states| >= 4
    decreases P.Kleene(e), 0
  {
    NfaOfSize(e);
    NfaOfWellFormed(e);
    KleeneSize(NfaOf(e));
  }

  lemma {:induction false} OptionNodeSize(e: P.Regex)
    requires ParserTree(e)
    ensures |OptionNode(e).states| >= 4
    decreases P.Option(e), 0
  {
    NfaOfSize(e);
    NfaOfWellFormed(e);
    OptionalSize(NfaOf(e));
  }

  lemma {:induction false} PlusNodeSize(e: P.Regex)
    requires ParserTree(e)
    ensures |PlusNode(e).states| >= 4
    decreases P.Plus(e), 0
  {
    NfaOfSize(e);
    NfaOfWellFormed(e);
    PlusSize(NfaOf(e));
  }

  /** `is_empty` on an automaton the parser built holds exactly when its
      tree is `Empty`: every other leaf has a different edge, every inner
      node more states. */
  lemma EmptyIff(t: P.Regex)
    requires ParserTree(t)
    ensures IsEmpty(NfaOf(t)) <==> t == P.Empty
  {
    SingleEdgeParts(Epsilon);
    NfaOfSize(t);
    RangeSize(2);
    match t
    case Char(c) => SingleEdgeParts(Char(c));
    case CharClass(s) => SingleEdgeParts(CharClass(s));
    case _ =>
  }

  // The automaton of each inner node is its node function's; stated on a
  // tree known only by its tag, which keeps the unfolding of `NfaOf` small.

  lemma ConcatLink(t: P.Regex)
    requires t.Concat?
    ensures NfaOf(t) == ConcatNode(t.left, t.right)
  {
  }

  lemma UnionLink(t: P.Regex)
    requires t.Union?
    ensures NfaOf(t) == UnionNode(t.left, t.right)
  {
  }

  lemma KleeneLink(t: P.Regex)
    requires t.Kleene?
    ensures NfaOf(t) == KleeneNode(t.inner)
  {
  }

  lemma OptionLink(t: P.Regex)
    requires t.Option?
    ensures NfaOf(t) == OptionNode(t.inner)
  {
  }

  lemma PlusLink(t: P.Regex)
    requires t.Plus?
    ensures NfaOf(t) == PlusNode(t.inner)
  {
  }

  /** `NFA::concat` of the automata of two trees. */
  method ConcatTrees(x: Nfa, ghost a: P.Regex, y: Nfa, ghost b: P.Regex) returns (r: Nfa)
    requires x == NfaOf(a) && y == NfaOf(b)
    ensures r == NfaOf(P.Concat(a, b))
  {
    NfaOfWellFormed(a);
    NfaOfWellFormed(b);
    r := Concat(x, y);
    ConcatLink(P.Concat(a, b));
  }

  /** `NFA::union` of the automata of two trees. */
  method UnionTrees(x: Nfa, ghost a: P.Regex, y: Nfa, ghost b: P.Regex) returns (r: Nfa)
    requires x == NfaOf(a) && y == NfaOf(b)
    ensures r == NfaOf(P.Union(a, b))
  {
    NfaOfWellFormed(a);
    NfaOfWellFormed(b);
    r := Union(x, y);
    UnionLink(P.Union(a, b));
  }

  /** `NFA::kleene` of the automaton of a tree. */
  method KleeneTree(x: Nfa, ghost e: P.Regex) returns (r: Nfa)
    requires x == NfaOf(e)
    ensures r == NfaOf(P.Kleene(e))
  {
    NfaOfWellFormed(e);
    r := Kleene(x);
    KleeneLink(P.Kleene(e));
  }

  /** `NFA::optional` of the automaton of a tree. */
  method OptionTree(x: Nfa, ghost e: P.Regex) returns (r: Nfa)
    requires x == NfaOf(e)
    ensures r == NfaOf(P.Option(e))
  {
    NfaOfWellFormed(e);
    r := Optional(x);
    OptionLink(P.Option(e));
  }

  /** `NFA::plus` of the automaton of a tree. */
  method PlusTree(x: Nfa, ghost e: P.Regex) returns (r: Nfa)
    requires x == NfaOf(e)
    ensures r == NfaOf(P.Plus(e))
  {
    NfaOfWellFormed(e);
    r := Plus(x);
    PlusLink(P.Plus(e));
  }

  /** The step repeated after every operand of `parse_regex`: the operand
      alone while the automaton so far `is_empty`, else concatenated. */
  method AppendOperand(nfa: Nfa, ghost acc: P.Regex, op: Nfa, ghost o: P.Regex) returns (r: Nfa)
    requires nfa == NfaOf(acc) && op == NfaOf(o) && ParserTree(acc)
    ensures r == NfaOf(Join(acc, o))
  {
    EmptyIff(acc);
    if IsEmpty(nfa) {
      r := op;
    } else {
      r := ConcatTrees(nfa, acc, op, o);
    }
  }

  /** Every tree the reference reading gives is one the parser builds. */
  lemma {:induction false} ParseSeqTrees(chars: seq<char>, pos: nat, acc: P.Regex)
    requires pos <= |chars| && ParserTree(acc)
    ensures ParseSeq(chars, pos, acc).Ok? ==> ParserTree(ParseSeq(chars, pos, acc).value.0)
    decreases |chars| - pos, 1
  {
    if pos < |chars| && chars[pos] != ')' {
      if chars[pos] == '|' {
        ParseSeqTrees(chars, pos + 1, P.Empty);
      } else {
        OperandTree(chars, pos);
        var op := Operand(chars, pos);
        if op.Ok? {
          JoinTree(acc, op.value.0);
          ParseSeqTrees(chars, op.value.1, Join(acc, op.value.0));
        }
      }
    }
  }

  lemma {:induction false} OperandTree(chars: seq<char>, pos: nat)
    requires pos < |chars|
    ensures Operand(chars, pos).Ok? ==> ParserTree(Operand(chars, pos).value.0)
    decreases |chars| - pos, 0
  {
    if chars[pos] == '(' {
      ParseSeqTrees(chars, pos + 1, P.Empty);
    }
  }

  /** Joining two parser trees gives a parser tree. */
  lemma JoinTree(acc: P.Regex, op: P.Regex)
    requires ParserTree(acc)
    ensures ParserTree(op) ==> ParserTree(Join(acc, op))
  {
  }

  // ---------------------------------------------------------------------
  // What follows a stop
  // ---------------------------------------------------------------------

  /** `b` is `a` followed by nothing or by text starting with `)`. */
  predicate ExtendsAtParen(a: seq<char>, b: seq<char>)
  {
    a <= b && (|b| > |a| ==> b[|a|] == ')')
  }

  lemma PostfixExtends(a: seq<char>, b: seq<char>, pos: nat, t: P.Regex)
    requires ExtendsAtParen(a, b) && pos <= |a|
    ensures Postfix(b, pos, t) == Postfix(a, pos, t)
  {
  }

  /** A class the shorter text closes reads the same in the longer one. */
  lemma {:induction false} ClassItemsExtends(a: seq<char>, b: seq<char>, pos: nat, members: set<char>)
    requires ExtendsAtParen(a, b) && pos <= |a| && ClassItems(a, pos, members).Ok?
    ensures ClassItems(b, pos, members) == ClassItems(a, pos, members)
    decreases |a| - pos
  {
    if a[pos] != ']' {
      if pos + 2 < |a| && a[pos + 1] == '-' && a[pos + 2] != ']' {
        if a[pos] <= a[pos + 2] {
          ClassItemsExtends(a, b, pos + 3, members + CharRange(a[pos], a[pos + 2]));
        }
      } else if a[pos] == '\\' && pos + 1 < |a| {
        ClassItemsExtends(a, b, pos + 2, members + {a[pos + 1]});
      } else {
        var m := members + {a[pos]};
        ClassItemsExtends(a, b, pos + 1, m);
        if pos + 2 == |a| && a[pos + 1] == '-' {
          assert ClassItems(a, pos + 2, m + {'-'}).Err?;
        }
      }
    }
  }

  lemma ClassOfExtends(a: seq<char>, b: seq<char>, pos: nat)
    requires ExtendsAtParen(a, b) && pos <= |a| && ClassOf(a, pos).Ok?
    ensures ClassOf(b, pos) == ClassOf(a, pos)
  {
    var negate := pos < |a| && a[pos] == '^';
    ClassItemsExtends(a, b, if negate then pos + 1 else pos, {});
  }

  /** What a level reads does not depend on the text after the place
      where it stops, as long as that text starts with `)`. */
  lemma {:induction false} ParseSeqExtends(a: seq<char>, b: seq<char>, pos: nat, acc: P.Regex)
    requires ExtendsAtParen(a, b) && pos <= |a| && ParseSeq(a, pos, acc).Ok?
    ensures ParseSeq(b, pos, acc) == ParseSeq(a, pos, acc)
    decreases |a| - pos, 1
  {
    if pos < |a| && a[pos] != ')' {
      if a[pos] == '|' {
        ParseSeqExtends(a, b, pos + 1, P.Empty);
      } else {
        OperandExtends(a, b, pos);
        var op := Operand(a, pos);
        ParseSeqExtends(a, b, op.value.1, Join(acc, op.value.0));
      }
    }
  }

  lemma {:induction false} OperandExtends(a: seq<char>, b: seq<char>, pos: nat)
    requires ExtendsAtParen(a, b) && pos < |a| && Operand(a, pos).Ok?
    ensures Operand(b, pos) == Operand(a, pos)
    decreases |a| - pos, 0
  {
    var c := a[pos];
    if c == '(' {
      ParseSeqExtends(a, b, pos + 1, P.Empty);
      var inner := ParseSeq(a, pos + 1, P.Empty);
      PostfixExtends(a, b, inner.value.1 + 1, inner.value.0);
    } else if c == '[' {
      ClassOfExtends(a, b, pos + 1);
      var cls := ClassOf(a, pos + 1);
      PostfixExtends(a, b, cls.value.1, cls.value.0);
    } else if c == '\\' {
      PostfixExtends(a, b, pos + 2, P.Char(a[pos + 1]));
    } else {
      PostfixExtends(a, b, pos + 1, Atom(c));
    }
  }

  /** As the crate reads a pattern, a `)` with no `(` ends it: whatever
      follows is ignored and the result is that of the text before it. */
  lemma StrayParenIgnored(s: string, rest: string)
    ensures ParseOf(s).Ok? ==> ParseOf(s + [')'] + rest) == ParseOf(s)
  {
    if s != [] && ParseOf(s).Ok? {
      ParseSeqExtends(s, s + [')'] + rest, 0, P.Empty);
    }
  }

  /** The corrected reading refuses a stray `)` after any pattern it
      accepts. */
  lemma StrayParenRejected(s: string, rest: string)
    ensures ParseAllOf(s).Ok? ==> ParseAllOf(s + [')'] + rest).Err?
  {
    if s != [] && ParseAllOf(s).Ok? {
      ParseSeqExtends(s, s + [')'] + rest, 0, P.Empty);
    }
  }

  /** Where the corrected reading accepts, it agrees with the crate's;
      where only the crate's accepts, its level stopped at a `)`. */
  lemma ParseAllAgrees(s: string)
    ensures ParseAllOf(s).Ok? ==> ParseOf(s) == ParseAllOf(s)
    ensures ParseOf(s).Ok? && ParseAllOf(s).Err? ==> s[ParseSeq(s, 0, P.Empty).value.1] == ')'
  {
  }

  /** A concrete case: the `b` after the stray `)` is dropped. */
  lemma StrayParenExample()
    ensures ParseOf("a)b") == Ok(P.Char('a'))
    ensures ParseAllOf("a)b") == Err("Unmatched parenthesis")
  {
    assert ParseSeq("a)b", 1, P.Char('a')) == Ok((P.Char('a'), 1));
    assert Operand("a)b", 0) == Ok((P.Char('a'), 1));
  }

  /** At most one postfix operator per operand: a second one is read as
      a literal character of its own. */
  lemma OperatorAsOperand(chars: seq<char>, pos: nat)
    requires pos < |chars| && chars[pos] in "*+?"
    ensures Operand(chars, pos) == Ok(Postfix(chars, pos + 1, P.Char(chars[pos])))
  {
  }

  lemma DoubleStarExample()
    ensures ParseOf("a**") == Ok(P.Concat(P.Kleene(P.Char('a')), P.Char('*')))
  {
    assert Operand("a**", 0) == Ok((P.Kleene(P.Char('a')), 2));
    assert Operand("a**", 2) == Ok((P.Char('*'), 3));
  }

  /** `|` binds loosest: `a|bc` is `a` or `bc`. */
  lemma UnionExample()
    ensures ParseOf("a|bc") == Ok(P.Union(P.Char('a'), P.Concat(P.Char('b'), P.Char('c'))))
  {
    var bc := P.Concat(P.Char('b'), P.Char('c'));
    UnionRightExample();
    assert ParseSeq("a|bc", 1, P.Char('a')) == Ok((P.Union(P.Char('a'), bc), 4));
    assert Operand("a|bc", 0) == Ok((P.Char('a'), 1));
  }

  /** The level after the `|` of `a|bc` reads `bc` to the end. */
  lemma UnionRightExample()
    ensures ParseSeq("a|bc", 2, P.Empty) == Ok((P.Concat(P.Char('b'), P.Char('c')), 4))
  {
    var bc := P.Concat(P.Char('b'), P.Char('c'));
    assert Operand("a|bc", 3) == Ok((P.Char('c'), 4));
    assert ParseSeq("a|bc", 3, P.Char('b')) == Ok((bc, 4));
    assert Operand("a|bc", 2) == Ok((P.Char('b'), 3));
  }

  /** A trailing `\\` is an error; an escaped operator is a literal. */
  lemma EscapeExamples()
    ensures ParseOf("\\") == Err("Escape at end of regex")
    ensures ParseOf("\\*") == Ok(P.Char('*'))
  {
    assert Operand("\\*", 0) == Ok((P.Char('*'), 2));
  }

  /** `]` outside a class is refused. */
  lemma RefusedExample()
    ensures ParseOf("a]") == Err("Unescaped special character: ]")
  {
    assert Operand("a]", 1) == Err("Unescaped special character: ]");
    assert Operand("a]", 0) == Ok((P.Char('a'), 1));
  }

  /** `(` needs its `)`. */
  lemma UnclosedExample()
    ensures ParseOf("(a") == Err("Unmatched parenthesis")
  {
    assert ParseSeq("(a", 2, P.Char('a')) == Ok((P.Char('a'), 2));
    assert Operand("(a", 1) == Ok((P.Char('a'), 2));
    assert ParseSeq("(a", 1, P.Empty) == Ok((P.Char('a'), 2));
  }

  /** A range adds every character between its ends. */
  lemma RangeExample()
    ensures ParseOf("[a-c]") == Ok(P.CharClass({'a', 'b', 'c'}))
  {
    var abc := CharRange('a', 'c');
    assert abc == {'a', 'b', 'c'};
    assert ClassItems("[a-c]", 4, abc) == Ok((abc, 4));
    assert {} + abc == abc;
    assert ClassItems("[a-c]", 1, {}) == Ok((abc, 4));
    assert ClassOf("[a-c]", 1) == Ok((P.CharClass(abc), 5));
    assert Operand("[a-c]", 0) == Ok((P.CharClass(abc), 5));
  }

  /** A leading `^` takes the ASCII complement. */
  lemma NegationExample()
    ensures ParseOf("[^a]") == Ok(P.CharClass(Ascii - {'a'}))
  {
    assert ClassItems("[^a]", 3, {'a'}) == Ok(({'a'}, 3));
    assert {} + {'a'} == {'a'};
    assert ClassItems("[^a]", 2, {}) == Ok(({'a'}, 3));
    assert ClassOf("[^a]", 1) == Ok((P.CharClass(Ascii - {'a'}), 4));
    assert Operand("[^a]", 0) == Ok((P.CharClass(Ascii - {'a'}), 4));
  }

  /** A descending range and a missing `]` are errors. */
  lemma ClassErrorExamples()
    ensures ParseOf("[b-a]") == Err("Invalid range: b-a")
    ensures ParseOf("[ab") == Err("Unterminated character class")
  {
    assert ClassItems("[ab", 2, {'a'}) == Err("Unterminated character class");
  }

  /** The error arms of an operand, at every position of every pattern:
      a `\\` is an error exactly when it is the last character; a special
      character without an arm of its own is refused by name; and a group
      is unmatched exactly when its inside runs to the end of the pattern. */
  lemma OperandErrors(chars: seq<char>, pos: nat)
    requires pos < |chars|
    ensures chars[pos] == '\\' ==>
      (Operand(chars, pos) == Err("Escape at end of regex") <==> pos + 1 == |chars|)
    ensures Refused(chars[pos]) && chars[pos] != '(' && chars[pos] != '[' && chars[pos] != '\\' ==>
      Operand(chars, pos) == Err("Unescaped special character: " + [chars[pos]])
    ensures chars[pos] == '(' && ParseSeq(chars, pos + 1, P.Empty).Ok? ==>
      (Operand(chars, pos) == Err("Unmatched parenthesis") <==> ParseSeq(chars, pos + 1, P.Empty).value.1 == |chars|)
  {
  }

  /** An operand that fails fails its whole level: a `]` anywhere outside
      a class, say, ends the parse with its message. */
  lemma OperandErrorStops(chars: seq<char>, pos: nat, acc: P.Regex)
    requires pos < |chars| && chars[pos] != ')' && chars[pos] != '|'
    requires Operand(chars, pos).Err?
    ensures ParseSeq(chars, pos, acc) == Err(Operand(chars, pos).error)
  {
  }

  /** A range whose start comes after its end is an error, with both ends
      in the message. */
  lemma InvalidRange(chars: seq<char>, pos: nat, members: set<char>)
    requires pos + 2 < |chars| && chars[pos] != ']' && chars[pos + 1] == '-' && chars[pos + 2] != ']'
    requires chars[pos] > chars[pos + 2]
    ensures ClassItems(chars, pos, members) == Err("Invalid range: " + [chars[pos]] + "-" + [chars[pos + 2]])
  {
  }

  /** The loop of `parse_char_class` fails in two ways only: the pattern
      ends before a `]`, or a descending range of the pattern is met. */
  lemma {:induction false} ClassItemsErrors(chars: seq<char>, pos: nat, members: set<char>)
    requires pos <= |chars|
    ensures ClassItems(chars, pos, members).Err? ==>
      || ClassItems(chars, pos, members).error == "Unterminated character class"
      || exists k | pos <= k && k + 2 < |chars| ::
           && chars[k + 1] == '-' && chars[k] > chars[k + 2]
           && ClassItems(chars, pos, members).error == "Invalid range: " + [chars[k]] + "-" + [chars[k + 2]]
    decreases |chars| - pos
  {
    var r := ClassItems(chars, pos, members);
    if pos < |chars| && chars[pos] != ']' {
      if pos + 2 < |chars| && chars[pos + 1] == '-' && chars[pos + 2] != ']' {
        if chars[pos] <= chars[pos + 2] {
          var more := members + CharRange(chars[pos], chars[pos + 2]);
          ClassItemsErrors(chars, pos + 3, more);
          assert r == ClassItems(chars, pos + 3, more);
        }
      } else if chars[pos] == '\\' && pos + 1 < |chars| {
        ClassItemsErrors(chars, pos + 2, members + {chars[pos + 1]});
      } else {
        ClassItemsErrors(chars, pos + 1, members + {chars[pos]});
      }
    }
  }

  /** Without a `]` after `pos` the class cannot be closed; without a `-`
      either, the error is the unterminated class. */
  lemma {:induction false} UnterminatedClass(chars: seq<char>, pos: nat, members: set<char>)
    requires pos <= |chars|
    requires forall k | pos <= k < |chars| :: chars[k] != ']'
    ensures ClassItems(chars, pos, members).Err?
    ensures (forall k | pos <= k < |chars| :: chars[k] != '-') ==>
      ClassItems(chars, pos, members) == Err("Unterminated character class")
    decreases |chars| - pos
  {
    if pos < |chars| {
      if pos + 2 < |chars| && chars[pos + 1] == '-' && chars[pos + 2] != ']' {
        if chars[pos] <= chars[pos + 2] {
          UnterminatedClass(chars, pos + 3, members + CharRange(chars[pos], chars[pos + 2]));
        }
      } else if chars[pos] == '\\' && pos + 1 < |chars| {
        UnterminatedClass(chars, pos + 2, members + {chars[pos + 1]});
      } else {
        UnterminatedClass(chars, pos + 1, members + {chars[pos]});
      }
    }
  }

  // ---------------------------------------------------------------------
  // The parser
  // ---------------------------------------------------------------------

  /** The loop `parse_regex` runs to build `.`: the codes 0 to 127 except
      the newline. */
  method DotClass() returns (s: set<char>)
    ensures s == DotChars
  {
    s := {};
    var i := 0;
    while i <= 127
      invariant 0 <= i <= 128
      invariant forall c: char :: c in s <==> (c as int) < i && c != '\n'
    {
      var ch := i as char;
      if ch != '\n' {
        s := s + {ch};
      }
      i := i + 1;
    }
    assert s == DotChars by {
      forall c: char ensures c in s <==> c in DotChars { AsciiMembers(c); }
    }
  }

  /** The range loop of `parse_char_class`: every code from `lo` to `hi`
      that `char::from_u32` accepts joins the class. */
  method InsertRange(members: set<char>, lo: char, hi: char) returns (r: set<char>)
    ensures r == members + CharRange(lo, hi)
  {
    r := members;
    var code := Code(lo);
    while code <= Code(hi)
      invariant Code(lo) <= code && (code <= Code(hi) + 1 || code == Code(lo))
      invariant r == members + set c: char | Code(lo) <= Code(c) < code
      decreases Code(hi) + 1 - code
    {
      if code < 0xD800 || 0xE000 <= code {
        r := r + {code as char};
      }
      code := code + 1;
    }
  }

  /** What `parse_regex` returns, given what the reference reading gives
      and where the cursor ended. */
  ghost predicate Agrees(r: Result<Nfa>, s: Result<(P.Regex, nat)>, pos: nat)
  {
    match s
    case Err(e) => r == Err(e)
    case Ok((t, end)) => r == Ok(NfaOf(t)) && pos == end
  }

  /** What `parse` returns, given what the reference reading gives. */
  ghost predicate Built(r: Result<Nfa>, s: Result<P.Regex>)
  {
    match s
    case Err(e) => r == Err(e)
    case Ok(t) => r == Ok(NfaOf(t))
  }

  /** `RegexParser`: the characters of the pattern and a cursor into them. */
  class RegexParser {
    const chars: seq<char>
    var pos: nat

    constructor (regex: string)
      ensures chars == regex && pos == 0
    {
      chars := regex;
      pos := 0;
    }

    /** `parse_operators`: one postfix operator, if the cursor is on one. */
    method ParseOperators(nfa: Nfa, ghost t: P.Regex) returns (r: Nfa)
      requires pos <= |chars| && nfa == NfaOf(t)
      modifies this
      ensures (r, pos) == (NfaOf(Postfix(chars, old(pos), t).0), Postfix(chars, old(pos), t).1)
    {
      r := nfa;
      if pos < |chars| {
        if chars[pos] == '*' {
          pos := pos + 1;
          r := KleeneTree(nfa, t);
        } else if chars[pos] == '+' {
          pos := pos + 1;
          r := PlusTree(nfa, t);
        } else if chars[pos] == '?' {
          pos := pos + 1;
          r := OptionTree(nfa, t);
        }
      }
    }

    /** The loop of `parse_char_class` over the members, up to and over
        the closing `]`. */
    method ClassMembers() returns (r: Result<set<char>>)
      requires pos <= |chars|
      modifies this
      ensures pos <= |chars|
      ensures match ClassItems(chars, old(pos), {})
        case Err(e) => r == Err(e)
        case Ok((members, end)) => r == Ok(members) && pos == end + 1
    {
      ghost var from := pos;
      var members: set<char> := {};
      while pos < |chars| && chars[pos] != ']'
        invariant from <= pos <= |chars|
        invariant ClassItems(chars, pos, members) == ClassItems(chars, from, {})
        decreases |chars| - pos
      {
        if pos + 2 < |chars| && chars[pos + 1] == '-' && chars[pos + 2] != ']' {
          var lo, hi := chars[pos], chars[pos + 2];
          if lo > hi {
            return Err("Invalid range: " + [lo] + "-" + [hi]);
          }
          members := InsertRange(members, lo, hi);
          pos := pos + 3;
        } else if chars[pos] == '\\' && pos + 1 < |chars| {
          pos := pos + 1;
          members := members + {chars[pos]};
          pos := pos + 1;
        } else {
          members := members + {chars[pos]};
          pos := pos + 1;
        }
      }
      if pos >= |chars| {
        return Err("Unterminated character class");
      }
      pos := pos + 1;
      r := Ok(members);
    }

    /** `parse_char_class`, entered just after the `[`. */
    method ParseCharClass() returns (r: Result<Nfa>)
      requires pos <= |chars|
      modifies this
      ensures pos <= |chars|
      ensures Agrees(r, ClassOf(chars, old(pos)), pos)
    {
      var negate := false;
      if pos < |chars| && chars[pos] == '^' {
        negate := true;
        pos := pos + 1;
      }
      var members := ClassMembers();
      if members.Err? {
        return Err(members.error);
      }
      var nfa;
      if negate {
        nfa := NegatedCharClass(members.value);
      } else {
        nfa := CharClassNfa(members.value);
      }
      r := Ok(nfa);
    }

    /** `parse_regex`: read operands until the end of the input or a `)`,
        concatenating them; a `|` ends the level with the union of what
        was read and the rest. */
    method ParseRegex() returns (r: Result<Nfa>)
      requires pos <= |chars|
      modifies this
      ensures pos <= |chars|
      ensures Agrees(r, ParseSeq(chars, old(pos), P.Empty), pos)
      decreases |chars| - pos, 2
    {
      ghost var start := pos;
      var nfa := Empty();
      ghost var acc := P.Empty;
      while pos < |chars|
        invariant start <= pos <= |chars|
        invariant ParserTree(acc) && nfa == NfaOf(acc)
        invariant ParseSeq(chars, pos, acc) == ParseSeq(chars, start, P.Empty)
        decreases |chars| - pos
      {
        ghost var here := pos;
        if chars[pos] == ')' {
          assert ParseSeq(chars, here, acc) == Ok((acc, here));
          return Ok(nfa);
        } else if chars[pos] == '|' {
          ghost var level := ParseSeq(chars, here + 1, P.Empty);
          pos := pos + 1;
          var right := ParseRegex();
          if right.Err? {
            assert ParseSeq(chars, here, acc) == level;
            return Err(right.error);
          }
          assert ParseSeq(chars, here, acc) == Ok((P.Union(acc, level.value.0), level.value.1));
          var union := UnionTrees(nfa, acc, right.value, level.value.0);
          return Ok(union);
        }
        var op := ParseOperand();
        if op.Err? {
          assert ParseSeq(chars, here, acc) == Err(op.error);
          return Err(op.error);
        }
        OperandTree(chars, here);
        ghost var o := Operand(chars, here).value.0;
        assert ParseSeq(chars, here, acc) == ParseSeq(chars, pos, Join(acc, o));
        nfa := AppendOperand(nfa, acc, op.value, o);
        acc := Join(acc, o);
      }
      assert ParseSeq(chars, pos, acc) == Ok((acc, pos));
      return Ok(nfa);
    }

    /** The arms of `parse_regex` that read an operand (a group, a class,
        an escaped or a plain character) and its postfix operator. */
    method ParseOperand() returns (r: Result<Nfa>)
      requires pos < |chars| && chars[pos] != ')' && chars[pos] != '|'
      modifies this
      ensures pos <= |chars|
      ensures Agrees(r, Operand(chars, old(pos)), pos)
      decreases |chars| - pos, 1
    {
      var c := chars[pos];
      if c == '(' {
        r := ParseGroup();
      } else if c == '[' {
        r := ParseClassOperand();
      } else if c == '\\' {
        r := ParseEscape();
      } else {
        r := ParseCharacter();
      }
    }

    /** The `[` arm: a class and the postfix operator after it. */
    method ParseClassOperand() returns (r: Result<Nfa>)
      requires pos < |chars| && chars[pos] == '['
      modifies this
      ensures pos <= |chars|
      ensures Agrees(r, Operand(chars, old(pos)), pos)
    {
      ghost var here := pos;
      pos := pos + 1;
      var members := ParseCharClass();
      if members.Err? {
        return Err(members.error);
      }
      ghost var cls := ClassOf(chars, here + 1).value;
      assert Operand(chars, here) == Ok(Postfix(chars, cls.1, cls.0));
      var op := ParseOperators(members.value, cls.0);
      r := Ok(op);
    }

    /** The `\\` arm: the next character taken literally, and the postfix
        operator after it. */
    method ParseEscape() returns (r: Result<Nfa>)
      requires pos < |chars| && chars[pos] == '\\'
      modifies this
      ensures pos <= |chars|
      ensures Agrees(r, Operand(chars, old(pos)), pos)
    {
      ghost var here := pos;
      if pos + 1 >= |chars| {
        return Err("Escape at end of regex");
      }
      pos := pos + 1;
      var charNfa := CharNfa(chars[pos]);
      pos := pos + 1;
      var op := ParseOperators(charNfa, P.Char(chars[here + 1]));
      r := Ok(op);
    }

    /** Any other character: refused when special, the class of `.`, or
        itself; then the postfix operator after it. */
    method ParseCharacter() returns (r: Result<Nfa>)
      requires pos < |chars|
      requires chars[pos] != '(' && chars[pos] != '[' && chars[pos] != '\\'
      modifies this
      ensures pos <= |chars|
      ensures Agrees(r, Operand(chars, old(pos)), pos)
    {
      var c := chars[pos];
      if Refused(c) {
        return Err("Unescaped special character: " + [c]);
      }
      ghost var operand := Postfix(chars, pos + 1, Atom(c));
      assert Operand(chars, pos) == Ok(operand);
      var charNfa := AtomNfa(c);
      pos := pos + 1;
      var op := ParseOperators(charNfa, Atom(c));
      r := Ok(op);
    }

    /** The automaton of a plain character: the class of `.`, or the
        character itself. */
    static method AtomNfa(c: char) returns (nfa: Nfa)
      ensures nfa == NfaOf(Atom(c))
    {
      if c == '.' {
        var dots := DotClass();
        nfa := CharClassNfa(dots);
      } else {
        nfa := CharNfa(c);
      }
    }

    /** The `(` arm of `parse_regex`: the inner level, its `)`, and the
        postfix operator after it. */
    method ParseGroup() returns (r: Result<Nfa>)
      requires pos < |chars| && chars[pos] == '('
      modifies this
      ensures pos <= |chars|
      ensures Agrees(r, Operand(chars, old(pos)), pos)
      decreases |chars| - pos, 0
    {
      ghost var start := pos;
      ghost var level := ParseSeq(chars, pos + 1, P.Empty);
      pos := pos + 1;
      var inner := ParseRegex();
      if inner.Err? {
        assert Operand(chars, start) == Err(inner.error);
        return Err(inner.error);
      }
      if pos >= |chars| || chars[pos] != ')' {
        assert Operand(chars, start) == Err("Unmatched parenthesis");
        return Err("Unmatched parenthesis");
      }
      assert Operand(chars, start) == Ok(Postfix(chars, pos + 1, level.value.0));
      pos := pos + 1;
      var op := ParseOperators(inner.value, level.value.0);
      r := Ok(op);
    }

    /** `RegexParser::parse`: the empty pattern is `empty()`, anything else
        is read by `parse_regex` from position 0. */
    static method Parse(regex: string) returns (r: Result<Nfa>)
      ensures Built(r, ParseOf(regex))
    {
      if regex == [] {
        var nfa := Empty();
        return Ok(nfa);
      }
      var parser := new RegexParser(regex);
      r := parser.ParseRegex();
    }

    /** `Parse` with the end-of-input check that `ParseAllOf` adds. */
    static method ParseAll(regex: string) returns (r: Result<Nfa>)
      ensures Built(r, ParseAllOf(regex))
    {
      if regex == [] {
        var nfa := Empty();
        return Ok(nfa);
      }
      var parser := new RegexParser(regex);
      r := parser.ParseRegex();
      if r.Ok? && parser.pos < |regex| {
        r := Err("Unmatched parenthesis");
      }
    }
  }
}
