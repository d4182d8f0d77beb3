/** `CodeGenerator` (src/code.rs): the C scanner written for a DFA and a
    lex file, as text. `transition()` is a switch over the states in
    ascending order, each an inner switch over the byte codes of its
    character edges; `is_accepting()` and `execute_action()` switch over the
    final states and the states with an action. */
module CodeGen {
  import opened Base
  import opened Text
  import opened Symbols
  import opened Dfas

  // ---------------------------------------------------------------------
  // Pieces of text
  // ---------------------------------------------------------------------

  /** `ch as u8`: the low byte of the character code. */
  function Byte(c: char): (b: nat)
    ensures b < 256
    ensures (c as int) < 256 ==> b == c as int
  {
    (c as int) % 256
  }

  /** `char_description`: names for line feed, carriage return, tab and
      space, the code of other control characters, and the character
      itself in quotes otherwise. */
  function CharDescription(c: char): (r: string)
  {
    if c == '\n' then "\\n (newline)"
    else if c == '\r' then "\\r (carriage return)"
    else if c == '\t' then "\\t (tab)"
    else if c == ' ' then "space"
    else if (c as int) <= 0x1F || (c as int) == 0x7F then "ASCII " + NatToString(Byte(c)) + " (control)"
    else "'" + [c] + "'"
  }

  /** The members of a `BTreeSet<usize>` (or the keys of a `BTreeMap`) in
      iteration order. */
  function SortedIds(s: set<nat>): (r: seq<nat>)
    ensures AscendingListing(r, s)
    decreases |s|
  {
    if s == {} then [] else
      var m := MinOf(s);
      var rest := SortedIds(s - {m});
      var r := [m] + rest;
      assert forall i, j :: 0 <= i < j < |r| ==> r[i] < r[j] by {
        forall i, j | 0 <= i < j < |r| ensures r[i] < r[j] {
          assert r[j] == rest[j - 1] && r[j] in s - {m};
          if i > 0 { assert r[i] == rest[i - 1]; }
        }
      }
      r
  }

  /** The characters `Char` edges leave `s` on. */
  function EdgeChars(dfa: Dfa, s: StateId): set<char>
  {
    set k | k in dfa.transitions && k.0 == s && k.1.Char? :: k.1.c
  }

  lemma EdgeCharKeys(dfa: Dfa, s: StateId)
    ensures forall c :: c in EdgeChars(dfa, s) <==> (s, Char(c)) in dfa.transitions
  {
    forall c | c in EdgeChars(dfa, s) ensures (s, Char(c)) in dfa.transitions {
      var k :| k in dfa.transitions && k.0 == s && k.1.Char? && k.1.c == c;
      assert k == (s, Char(c));
    }
  }

  /** The `Char` edges of `s` in the key order of the transition map: by
      ascending character, each with its target. */
  function CharCases(dfa: Dfa, s: StateId): (r: seq<(char, StateId)>)
    ensures |r| == |EdgeChars(dfa, s)|
  {
    var cs := SortedChars(EdgeChars(dfa, s));
    EdgeCharKeys(dfa, s);
    assert forall k :: 0 <= k < |cs| ==> (s, Char(cs[k])) in dfa.transitions by {
      forall k | 0 <= k < |cs| ensures (s, Char(cs[k])) in dfa.transitions {
        assert cs[k] in EdgeChars(dfa, s);
      }
    }
    seq(|cs|, k requires 0 <= k < |cs| => (cs[k], dfa.transitions[(s, Char(cs[k]))]))
  }

  /** The cases of `s` are its `Char` edges by ascending character, each
      with its target. */
  lemma CharCasesEntries(dfa: Dfa, s: StateId)
    ensures var r := CharCases(dfa, s);
      forall k :: 0 <= k < |r| ==>
        && r[k].0 == SortedChars(EdgeChars(dfa, s))[k]
        && (s, Char(r[k].0)) in dfa.transitions && r[k].1 == dfa.transitions[(s, Char(r[k].0))]
  {
    EdgeCharKeys(dfa, s);
  }

  /** `format!("    case {}:\n", state)`. */
  function StateLabel(s: nat): string
  {
    "    case " + NatToString(s) + ":\n"
  }

  /** One case of the inner switch. */
  function CharCaseText(c: char, target: StateId): string
  {
    "            case " + NatToString(Byte(c)) + ": // " + CharDescription(c) + "\n"
    + "                return " + NatToString(target) + ";\n"
  }

  function CharCasesText(cases: seq<(char, StateId)>): string
  {
    if cases == [] then ""
    else CharCasesText(cases[..|cases| - 1]) + CharCaseText(cases[|cases| - 1].0, cases[|cases| - 1].1)
  }

  /** The case of one state in `transition()`. */
  function StateText(dfa: Dfa, s: StateId): string
  {
    StateLabel(s)
    + "        switch(c) {\n"
    + CharCasesText(CharCases(dfa, s))
    + "            default:\n"
    + "                return -1; // Error state\n"
    + "        }\n"
  }

  function StatesText(dfa: Dfa, ids: seq<StateId>): string
  {
    if ids == [] then ""
    else StatesText(dfa, ids[..|ids| - 1]) + StateText(dfa, ids[|ids| - 1])
  }

  /** The cases of `is_accepting()`. */
  function AcceptText(ids: seq<StateId>): string
  {
    if ids == [] then "" else StateLabel(ids[0]) + AcceptBody + AcceptText(ids[1..])
  }

  const AcceptBody := "        return 1;\n"

  /** The cases of `execute_action()`. */
  function ActionsText(actions: map<StateId, Action>, ids: seq<StateId>): string
    requires forall k :: 0 <= k < |ids| ==> ids[k] in actions
  {
    if ids == [] then ""
    else
      var s := ids[|ids| - 1];
      ActionsText(actions, ids[..|ids| - 1]) + StateLabel(s) + "        " + actions[s] + "\n" + "        break;\n"
  }

  const TransitionPrologue := "typedef int StateID;\n" + "\n"
    + "static StateID transition(StateID state, unsigned char c) {\n" + "    switch(state) {\n"
  const SwitchEpilogue := "    default:\n" + "        return -1; // Error state\n" + "    }\n" + "}\n" + "\n"
  const AcceptPrologue := "static int is_accepting(StateID state) {\n" + "    switch(state) {\n"
  const AcceptEpilogue := "    default:\n" + "        return 0;\n" + "    }\n" + "}\n" + "\n"
  const ActionPrologue := "static void execute_action(StateID state) {\n" + "    switch(state) {\n"
  const ActionEpilogue := "    default:\n" + "        // No action for this state\n" + "        break;\n"
    + "    }\n" + "}\n" + "\n"

  /** `generate_transition_table`. */
  function TableText(dfa: Dfa): string
  {
    TransitionPrologue + StatesText(dfa, SortedIds(dfa.states)) + SwitchEpilogue
    + AcceptPrologue + AcceptText(SortedIds(dfa.finals)) + AcceptEpilogue
    + ActionPrologue + ActionsText(dfa.actions, SortedIds(dfa.actions.Keys)) + ActionEpilogue
  }

  /** Each line followed by a line feed. */
  function LinesText(lines: seq<string>): string
  {
    if lines == [] then "" else LinesText(lines[..|lines| - 1]) + lines[|lines| - 1] + "\n"
  }

  const HeaderTail := "#include <string.h>\n" + "#include <stdio.h>\n" + "#include <stdlib.h>\n" + "\n"
    + "#define YY_BUFFER_SIZE 16384\n" + "\n"
    + "char* yytext;\n" + "int   yyleng;\n" + "int   yylineno = 1;\n" + "int   yycolumn = 0;\n"
    + "FILE *yyin = NULL;\n" + "\n"

  /** `generate_header`: the definition-section code lines, then the
      includes and the scanner's globals. */
  function HeaderText(definitionsCode: seq<string>): string
  {
    LinesText(definitionsCode) + HeaderTail
  }

  /** `generate_token_logic`: `yylex()` and `main()`, the same text for
      every DFA and file. */
  const TokenLogic: string :=
    "int yylex(void) {\n"
    + "    static char *current_pos = NULL;\n"
    + "    static char *buffer_end = NULL;\n"
    + "    static char buffer[YY_BUFFER_SIZE];\n"
    + "    char *token_start;\n"
    + "\n"
    + "    // Initialize buffer if first call\n"
    + "    if (current_pos == NULL || current_pos >= buffer_end) {\n"
    + "        if ((current_pos = buffer_end = buffer) == NULL)\n"
    + "            return 0; // EOF\n"
    + "        int n = fread(buffer, 1, YY_BUFFER_SIZE, yyin);\n"
    + "        buffer_end = buffer + n;\n"
    + "        if (n == 0) return 0; // EOF\n"
    + "    }\n"
    + "\n"
    + "yylex_restart:\n"
    + "    token_start = current_pos;\n"
    + "    StateID current_state = 0; // Start state\n"
    + "    StateID last_accepting_state = -1;\n"
    + "    char *last_accepting_pos = NULL;\n"
    + "\n"
    + "    while (current_pos < buffer_end) {\n"
    + "        unsigned char c = (unsigned char)*current_pos;\n"
    + "        StateID next_state = transition(current_state, c);\n"
    + "\n"
    + "        if (next_state == -1) {\n"
    + "            break; // No valid transition\n"
    + "        }\n"
    + "\n"
    + "        current_state = next_state;\n"
    + "        current_pos++;\n"
    + "\n"
    + "        // Update line and column counts\n"
    + "        if (c == '\\n') {\n"
    + "            yylineno++;\n"
    + "            yycolumn = 0;\n"
    + "        } else {\n"
    + "            yycolumn++;\n"
    + "        }\n"
    + "\n"
    + "        if (is_accepting(current_state)) {\n"
    + "            last_accepting_state = current_state;\n"
    + "            last_accepting_pos = current_pos;\n"
    + "        }\n"
    + "    }\n"
    + "\n"
    + "    if (last_accepting_state != -1) {\n"
    + "        // Found a match - set up yytext and yyleng\n"
    + "        yyleng = last_accepting_pos - token_start;\n"
    + "        yytext = (char *)malloc(yyleng + 1);\n"
    + "        if (!yytext) {\n"
    + "            fprintf(stderr, \"Out of memory allocating yytext\\n\");\n"
    + "            exit(1);\n"
    + "        }\n"
    + "        memcpy(yytext, token_start, yyleng);\n"
    + "        yytext[yyleng] = '\\0';\n"
    + "\n"
    + "        // Reposition the current_pos to where we accepted\n"
    + "        current_pos = last_accepting_pos;\n"
    + "\n"
    + "        // Execute the associated action\n"
    + "        execute_action(last_accepting_state);\n"
    + "\n"
    + "        // Free yytext before returning since the action should have consumed it\n"
    + "        free(yytext);\n"
    + "        yytext = NULL;\n"
    + "\n"
    + "        // Return to get the next token\n"
    + "        goto yylex_restart;\n"
    + "    }\n"
    + "\n"
    + "\n"
    + "    if (current_pos < buffer_end) {\n"
    + "        fprintf(stderr, \"Lexer error: Unexpected character '"
    + "%c' (0x%02X) at line %d, column %d\\n\",\n"
    + "                (*current_pos >= 32 && *current_pos <= 126) ? *current_pos : '?',\n"
    + "                (unsigned char)*current_pos, yylineno, yycolumn);\n"
    + "        current_pos++; // Skip invalid character\n"
    + "        goto yylex_restart;\n"
    + "    }\n"
    + "    return 0; // EOF\n"
    + "}\n"
    + "\n"
    + "int main(int argc, char *argv[]) {\n"
    + "    FILE *input_file = stdin;\n"
    + "\n"
    + "    if (argc > 1) {\n"
    + "        input_file = fopen(argv[1], \"r\");\n"
    + "        if (!input_file) {\n"
    + "            fprintf(stderr, \"Cannot open file %s\\n\", argv[1]);\n"
    + "            return 1;\n"
    + "        }\n"
    + "    }\n"
    + "\n"
    + "    yyin = input_file;\n"
    + "    yylex();\n"
    + "\n"
    + "    if (input_file != stdin) {\n"
    + "        fclose(input_file);\n"
    + "    }\n"
    + "\n"
    + "    return 0;\n"
    + "}\n"
    + "\n"

  /** `generate_code`. */
  function CodeText(definitionsCode: seq<string>, dfa: Dfa, code: string): string
  {
    HeaderText(definitionsCode) + TableText(dfa) + TokenLogic + code
  }

  // ---------------------------------------------------------------------
  // The generator's loops
  // ---------------------------------------------------------------------

  /** `generate_header`. */
  method GenerateHeader(definitionsCode: seq<string>) returns (header: string)
    ensures header == HeaderText(definitionsCode)
  {
    header := "";
    for k := 0 to |definitionsCode|
      invariant header == LinesText(definitionsCode[..k])
    {
      assert definitionsCode[..k + 1][..k] == definitionsCode[..k];
      header := header + definitionsCode[k] + "\n";
    }
    assert definitionsCode[..|definitionsCode|] == definitionsCode;
    header := header + HeaderTail;
  }

  /** The inner loop over the character edges of a state. */
  method CharCaseLines(cases: seq<(char, StateId)>) returns (inner: string)
    ensures inner == CharCasesText(cases)
  {
    inner := "";
    for k := 0 to |cases|
      invariant inner == CharCasesText(cases[..k])
    {
      assert cases[..k + 1][..k] == cases[..k];
      inner := inner + CharCaseText(cases[k].0, cases[k].1);
    }
    assert cases[..|cases|] == cases;
  }

  /** The case of one state: its character edges, then the default. */
  method StateCase(dfa: Dfa, s: StateId) returns (text: string)
    ensures text == StateText(dfa, s)
  {
    var inner := CharCaseLines(CharCases(dfa, s));
    text := StateLabel(s) + "        switch(c) {\n" + inner
      + "            default:\n" + "                return -1; // Error state\n" + "        }\n";
  }

  /** The cases of `transition()`, one per state in ascending order. */
  method TransitionCases(dfa: Dfa, states: seq<StateId>) returns (body: string)
    ensures body == StatesText(dfa, states)
  {
    body := "";
    for k := 0 to |states|
      invariant body == StatesText(dfa, states[..k])
    {
      assert states[..k + 1][..k] == states[..k];
      var text := StateCase(dfa, states[k]);
      body := body + text;
    }
    assert states[..|states|] == states;
  }

  /** The cases of `is_accepting()`, one per final state. */
  method AcceptCases(finals: seq<StateId>) returns (accept: string)
    ensures accept == AcceptText(finals)
  {
    accept := "";
    for k := 0 to |finals|
      invariant accept + AcceptText(finals[k..]) == AcceptText(finals)
    {
      assert AcceptText(finals[k..]) == StateLabel(finals[k]) + AcceptBody + AcceptText(finals[k + 1..]);
      accept := accept + StateLabel(finals[k]) + AcceptBody;
    }
  }

  /** The cases of `execute_action()`, one per state with an action. */
  method ActionCases(actions: map<StateId, Action>, ids: seq<StateId>) returns (text: string)
    requires forall i :: 0 <= i < |ids| ==> ids[i] in actions
    ensures text == ActionsText(actions, ids)
  {
    text := "";
    for k := 0 to |ids|
      invariant text == ActionsText(actions, ids[..k])
    {
      assert ids[..k + 1][..k] == ids[..k];
      var s := ids[k];
      text := text + StateLabel(s) + "        " + actions[s] + "\n" + "        break;\n";
    }
    assert ids[..|ids|] == ids;
  }

  /** `generate_transition_table`: the three switches in turn. */
  method GenerateTransitionTable(dfa: Dfa) returns (table: string)
    ensures table == TableText(dfa)
  {
    var body := TransitionCases(dfa, SortedIds(dfa.states));
    var accept := AcceptCases(SortedIds(dfa.finals));
    var actions := ActionCases(dfa.actions, SortedIds(dfa.actions.Keys));
    table := TransitionPrologue + body + SwitchEpilogue
      + AcceptPrologue + accept + AcceptEpilogue
      + ActionPrologue + actions + ActionEpilogue;
  }

  /** `generate_code`: header, tables, scanner and the file's own code, in
      that order. */
  method GenerateCode(definitionsCode: seq<string>, dfa: Dfa, code: string) returns (r: string)
    ensures r == CodeText(definitionsCode, dfa, code)
  {
    var header := GenerateHeader(definitionsCode);
    var table := GenerateTransitionTable(dfa);
    r := header + table + TokenLogic + code;
  }

  // ---------------------------------------------------------------------
  // What the text means
  // ---------------------------------------------------------------------

  /** A C `switch (c)` over the cases of a state: the target of the first
      case labelled with byte `b`, or -1 from the default. */
  function SwitchLookup(cases: seq<(char, StateId)>, b: nat): int
  {
    if cases == [] then -1
    else if Byte(cases[0].0) == b then cases[0].1
    else SwitchLookup(cases[1..], b)
  }

  lemma {:induction false} LookupHit(cases: seq<(char, StateId)>, k: nat, b: nat)
    requires k < |cases| && Byte(cases[k].0) == b
    requires forall j :: 0 <= j < k ==> Byte(cases[j].0) != b
    ensures SwitchLookup(cases, b) == cases[k].1
  {
    if k > 0 {
      LookupHit(cases[1..], k - 1, b);
    }
  }

  lemma {:induction false} LookupMiss(cases: seq<(char, StateId)>, b: nat)
    requires forall j :: 0 <= j < |cases| ==> Byte(cases[j].0) != b
    ensures SwitchLookup(cases, b) == -1
  {
    if cases != [] {
      LookupMiss(cases[1..], b);
    }
  }

  /** The inner switch of `transition()` for state `s` answers exactly the
      DFA: for every byte, the target of the `Char` edge on it, or -1 when
      there is none. Edge characters are taken to be single bytes. */
  lemma TransitionSwitch(dfa: Dfa, s: StateId, b: nat)
    requires b < 256
    requires forall c :: c in EdgeChars(dfa, s) ==> (c as int) < 256
    ensures SwitchLookup(CharCases(dfa, s), b) ==
      if (s, Char(b as char)) in dfa.transitions then dfa.transitions[(s, Char(b as char))] else -1
  {
    var cases := CharCases(dfa, s);
    var cs := SortedChars(EdgeChars(dfa, s));
    CharCasesEntries(dfa, s);
    EdgeCharKeys(dfa, s);
    if (s, Char(b as char)) in dfa.transitions {
      assert b as char in cs;
      var k :| 0 <= k < |cs| && cs[k] == b as char;
      forall j | 0 <= j < k ensures Byte(cases[j].0) != b {
        assert cs[j] < cs[k] && cs[j] in EdgeChars(dfa, s);
      }
      LookupHit(cases, k, b);
    } else {
      forall j | 0 <= j < |cases| ensures Byte(cases[j].0) != b {
        assert cs[j] in EdgeChars(dfa, s);
      }
      LookupMiss(cases, b);
    }
  }

  /** Different characters are described differently. */
  lemma CharDescriptionInjective(a: char, b: char)
    requires CharDescription(a) == CharDescription(b)
    ensures a == b
  {
    var d := CharDescription(a);
    var control := (c: char) => c != '\n' && c != '\r' && c != '\t' && c != ' '
                                && ((c as int) <= 0x1F || (c as int) == 0x7F);
    if control(a) && control(b) {
      var x := NatToString(Byte(a));
      var y := NatToString(Byte(b));
      assert d == "ASCII " + x + " (control)" && d == "ASCII " + y + " (control)";
      assert |x| == |y|;
      assert x == d[6..|d| - 10] == y;
      NatToStringInjective(Byte(a), Byte(b));
    } else {
      // the first two characters tell the kinds apart, and a quoted
      // character is the second
      assert d[0] == CharDescription(b)[0] && d[1] == CharDescription(b)[1];
    }
  }

  /** The length of the run of decimal digits `t` starts with. */
  function DigitRun(t: string): (n: nat)
    ensures n <= |t|
    ensures forall i :: 0 <= i < n ==> '0' <= t[i] <= '9'
    ensures n < |t| ==> !('0' <= t[n] <= '9')
    decreases |t|
  {
    if t != [] && '0' <= t[0] <= '9' then 1 + DigitRun(t[1..]) else 0
  }

  /** Reads the cases of `is_accepting()` back into their state numbers. */
  function ReadAccept(t: string): Option<seq<StateId>>
    decreases |t|
  {
    if t == [] then Some([])
    else if !StartsWith(t, "    case ") then None
    else
      var rest := t[9..];
      var n := DigitRun(rest);
      var tail := rest[n..];
      if n == 0 || !StartsWith(tail, ":\n" + AcceptBody) then None
      else match ReadAccept(tail[2 + |AcceptBody|..])
        case None => None
        case Some(ids) => Some([DigitsValue(rest[..n])] + ids)
  }

  lemma {:induction false} DigitRunOf(d: string, u: string)
    requires forall i :: 0 <= i < |d| ==> '0' <= d[i] <= '9'
    requires u != [] && !('0' <= u[0] <= '9')
    ensures DigitRun(d + u) == |d|
  {
    if d != [] {
      assert (d + u)[1..] == d[1..] + u;
      DigitRunOf(d[1..], u);
    }
  }

  /** One accepting case is read back, then the rest. */
  lemma ReadAcceptCase(x: string, w: string)
    requires x != [] && forall i :: 0 <= i < |x| ==> '0' <= x[i] <= '9'
    ensures ReadAccept("    case " + x + ":\n" + AcceptBody + w) ==
      match ReadAccept(w)
        case None => None
        case Some(ids) => Some([DigitsValue(x)] + ids)
  {
    var u := ":\n" + AcceptBody + w;
    var t := "    case " + x + ":\n" + AcceptBody + w;
    assert t == "    case " + (x + u);
    assert StartsWith(t, "    case ") && t[9..] == x + u;
    DigitRunOf(x, u);
    assert (x + u)[..|x|] == x && (x + u)[|x|..] == u;
    assert StartsWith(u, ":\n" + AcceptBody) && u[2 + |AcceptBody|..] == w;
  }

  /** The accepting cases read back as the listed states, in order. */
  lemma {:induction false} AcceptReadBack(ids: seq<StateId>)
    ensures ReadAccept(AcceptText(ids)) == Some(ids)
  {
    if ids != [] {
      var x := NatToString(ids[0]);
      AcceptReadBack(ids[1..]);
      ReadAcceptCase(x, AcceptText(ids[1..]));
      NatToStringRoundTrip(ids[0]);
      assert AcceptText(ids) == "    case " + x + ":\n" + AcceptBody + AcceptText(ids[1..]);
      assert [ids[0]] + ids[1..] == ids;
    }
  }

  /** `is_accepting()` has one case per final state and no other, in
      ascending order. */
  lemma AcceptingCases(dfa: Dfa)
    ensures ReadAccept(AcceptText(SortedIds(dfa.finals))).Some?
    ensures AscendingListing(ReadAccept(AcceptText(SortedIds(dfa.finals))).value, dfa.finals)
  {
    AcceptReadBack(SortedIds(dfa.finals));
  }
}
