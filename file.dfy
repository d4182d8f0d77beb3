/** `LexFile::new` (src/file.rs), from the lines of the file onward: a
    section machine switched by `%%` lines. Definitions bind a name to a
    macro-expanded value; rule lines pair a pattern with an action, where
    the action `|` queues the pattern for a later action and an action
    opening a brace runs over several lines until the braces balance; the
    code section is copied through. */
module LexFiles {
  import opened Base
  import opened Text
  import opened Macros
  import Tables

  datatype Section = Definitions | Rules | Code

  /** What a lex file holds: named definitions, the rules in order, and the
      user code copied after the second `%%`. */
  datatype LexFile = LexFile(definitions: map<string, string>, rules: seq<Tables.Rule>, code: string)

  /** The locals of the line loop: `current_section`, the three results,
      `pending_patterns`, `action_accumulator`, `in_action_block` and
      `brace_count`. */
  datatype Reader = Reader(section: Section, definitions: map<string, string>, rules: seq<Tables.Rule>,
                           code: string, pending: seq<Tables.Pending>, accumulator: string,
                           inBlock: bool, braces: int)

  const Start := Reader(Definitions, map[], [], "", [], "", false, 0)

  /** Blank lines and lines starting with `//` or `#`, after trimming. */
  predicate Skipped(line: string)
  {
    line == [] || StartsWith(line, "//") || StartsWith(line, "#")
  }

  /** The line that ends a `%{` block of the definitions section. */
  predicate Closes(line: string)
  {
    StartsWith(Trim(line), "%}")
  }

  /** Where reading resumes after a `%{` block whose body starts at `j`:
      past the first closing line, or at the end of the file. */
  function BlockEnd(lines: seq<string>, j: nat): (r: nat)
    requires j <= |lines|
    ensures j <= r <= |lines|
    decreases |lines| - j
  {
    if j == |lines| then j
    else if Closes(lines[j]) then j + 1
    else BlockEnd(lines, j + 1)
  }

  /** Opening minus closing braces. */
  function Net(s: string): int
  {
    multiset(s)['{'] as int - multiset(s)['}'] as int
  }

  /** The brace loop over a line of an open action block, from depth
      `braces`: the depth reached, and whether it dropped to zero (the loop
      stops there). */
  function BlockScan(s: string, braces: int): (r: (int, bool))
    decreases |s|
  {
    if s == [] then (braces, false)
    else if s[0] == '{' then BlockScan(s[1..], braces + 1)
    else if s[0] == '}' then
      if braces - 1 == 0 then (0, true) else BlockScan(s[1..], braces - 1)
    else BlockScan(s[1..], braces)
  }

  /** The lines from `j` on, each followed by a line feed. */
  function CodeOf(lines: seq<string>, j: nat): string
    requires j <= |lines|
    decreases |lines| - j
  {
    if j == |lines| then "" else lines[j] + "\n" + CodeOf(lines, j + 1)
  }

  function MalformedError(path: string, lineNumber: nat): string
  {
    "Error: " + path + ":" + NatToString(lineNumber) + " - Malformed rule"
  }

  function PendingError(path: string, lineNumber: nat): string
  {
    "Error: " + path + ":" + NatToString(lineNumber) + " - Pattern without action"
  }

  function UnclosedError(path: string): string
  {
    "Error: " + path + " - Unclosed action block"
  }

  function SeparatorError(lineNumber: nat): string
  {
    "Unexpected section separator at line " + NatToString(lineNumber)
  }

  /** A non-skipped line of the definitions section, trimmed to `line`: a
      `%{` block is passed over, a line with a space binds the name before
      the space to the trimmed, macro-expanded rest, and any other line is
      ignored. */
  function DefinitionStep(lines: seq<string>, i: nat, line: string, st: Reader): (r: Result<(Reader, nat)>)
    requires i < |lines|
    ensures r.Ok? ==> i < r.value.1 <= |lines|
  {
    if StartsWith(line, "%{") then Ok((st, BlockEnd(lines, i + 1)))
    else match IndexOf(line, ' ')
      case None => Ok((st, i + 1))
      case Some(pos) =>
        var name := Trim(line[..pos]);
        var value := Trim(line[pos..]);
        match ExpandOf(value, st.definitions)
        case Err(e) => Err(e)
        case Ok(v) => Ok((st.(definitions := st.definitions[name := v]), i + 1))
  }

  /** A line inside an open action block: it joins the accumulated action,
      and when the braces balance the action goes to every queued pattern. */
  function BlockLine(st: Reader, line: string): Reader
  {
    var acc := st.accumulator + line + "\n";
    var scan := BlockScan(line, st.braces);
    if scan.1 then
      st.(rules := st.rules + Tables.RulesFor(st.pending, acc), pending := [], accumulator := "",
          inBlock := false, braces := 0)
    else st.(accumulator := acc, braces := scan.0)
  }

  /** A rule line with its expanded pattern and trimmed action. */
  function RuleLine(st: Reader, pattern: string, action: string, lineNumber: nat): Reader
  {
    if action == "|" then st.(pending := st.pending + [Tables.Pending(pattern, lineNumber)])
    else if StartsWith(action, "{") then
      var acc := action + "\n";
      var braces := 1 + Net(action[1..]);
      if braces > 0 then
        st.(accumulator := acc, braces := braces, inBlock := true,
            pending := if st.pending == [] then [Tables.Pending(pattern, lineNumber)] else st.pending)
      else if st.pending != [] then
        st.(rules := st.rules + Tables.RulesFor(st.pending, acc), pending := [], accumulator := "",
            braces := braces)
      else st.(rules := st.rules + [Tables.Rule(pattern, acc)], accumulator := "", braces := braces)
    else
      st.(rules := st.rules + Tables.RulesFor(st.pending, action) + [Tables.Rule(pattern, action)],
          pending := [])
  }

  /** A non-skipped line of the rules section, trimmed to `line`. Outside a
      block it splits at its first whitespace; without one it is
      malformed. */
  function RulesStep(path: string, i: nat, line: string, st: Reader): (r: Result<Reader>)
  {
    if st.inBlock then Ok(BlockLine(st, line))
    else match IndexOfWhitespace(line)
      case None => Err(MalformedError(path, i + 1))
      case Some(pos) =>
        var action := Trim(line[pos..]);
        match ExpandOf(Trim(line[..pos]), st.definitions)
        case Err(e) => Err(e)
        case Ok(pattern) => Ok(RuleLine(st, pattern, action, i + 1))
  }

  /** One round of the loop over `i`: the new locals and the next line. */
  function Step(path: string, lines: seq<string>, i: nat, st: Reader): (r: Result<(Reader, nat)>)
    requires i < |lines|
    ensures r.Ok? ==> i < r.value.1 <= |lines|
  {
    var line := Trim(lines[i]);
    if line == "%%" then
      match st.section
      case Definitions => Ok((st.(section := Rules), i + 1))
      case Rules => Ok((st.(section := Code), i + 1))
      case Code => Err(SeparatorError(i + 1))
    else if Skipped(line) then Ok((st, i + 1))
    else match st.section
      case Definitions => DefinitionStep(lines, i, line, st)
      case Rules =>
        (match RulesStep(path, i, line, st)
         case Err(e) => Err(e)
         case Ok(st') => Ok((st', i + 1)))
      case Code => Ok((st.(code := st.code + CodeOf(lines, i + 1)), |lines|))
  }

  /** The loop from line `i` on. */
  function Run(path: string, lines: seq<string>, i: nat, st: Reader): (r: Result<Reader>)
    requires i <= |lines|
    decreases |lines| - i
  {
    if i == |lines| then Ok(st)
    else match Step(path, lines, i, st)
      case Err(e) => Err(e)
      case Ok(next) => Run(path, lines, next.1, next.0)
  }

  /** `LexFile::new` after the read: the loop, then the checks for queued
      patterns and for an open block, in that order. */
  function FileOf(path: string, lines: seq<string>): (r: Result<LexFile>)
  {
    match Run(path, lines, 0, Start)
    case Err(e) => Err(e)
    case Ok(st) =>
      if st.pending != [] then Err(PendingError(path, st.pending[0].lineNumber))
      else if st.inBlock then Err(UnclosedError(path))
      else Ok(LexFile(st.definitions, st.rules, st.code))
  }

  // ---------------------------------------------------------------------
  // The loops
  // ---------------------------------------------------------------------

  /** The inner loop over a `%{` block. */
  method SkipCodeBlock(lines: seq<string>, j: nat) returns (k: nat)
    requires j <= |lines|
    ensures k == BlockEnd(lines, j)
  {
    k := j;
    while k < |lines| && !StartsWith(Trim(lines[k]), "%}")
      invariant j <= k <= |lines|
      invariant BlockEnd(lines, k) == BlockEnd(lines, j)
      decreases |lines| - k
    {
      k := k + 1;
    }
    if k < |lines| {
      k := k + 1;
    }
  }

  /** The brace loop over a line of an open block, with its early exit. */
  method ScanBlockLine(line: string, braces: int) returns (depth: int, closed: bool)
    ensures (depth, closed) == BlockScan(line, braces)
  {
    depth, closed := braces, false;
    var k := 0;
    while k < |line| && !closed
      invariant 0 <= k <= |line|
      invariant closed ==> (depth, closed) == BlockScan(line, braces)
      invariant !closed ==> BlockScan(line[k..], depth) == BlockScan(line, braces)
      decreases |line| - k
    {
      assert line[k..][1..] == line[k + 1..];
      var c := line[k];
      if c == '{' {
        depth := depth + 1;
      } else if c == '}' {
        depth := depth - 1;
        if depth == 0 {
          closed := true;
        }
      }
      k := k + 1;
    }
  }

  /** The count of braces on the line that opens an action: one for the
      first character, then every later brace. */
  method OpeningBraces(action: string) returns (braces: int)
    requires action != []
    ensures braces == 1 + Net(action[1..])
  {
    braces := 1;
    for k := 1 to |action|
      invariant braces == 1 + Net(action[1..k])
    {
      assert action[1..k + 1] == action[1..k] + [action[k]];
      if action[k] == '{' {
        braces := braces + 1;
      } else if action[k] == '}' {
        braces := braces - 1;
      }
    }
    assert action[1..|action|] == action[1..];
  }

  /** The code section: every later line, verbatim, with a line feed. */
  method CollectCode(code: string, lines: seq<string>, j: nat) returns (r: string)
    requires j <= |lines|
    ensures r == code + CodeOf(lines, j)
  {
    r := code;
    var k := j;
    while k < |lines|
      invariant j <= k <= |lines|
      invariant r + CodeOf(lines, k) == code + CodeOf(lines, j)
      decreases |lines| - k
    {
      assert r + CodeOf(lines, k) == (r + lines[k] + "\n") + CodeOf(lines, k + 1);
      r := r + lines[k] + "\n";
      k := k + 1;
    }
    assert CodeOf(lines, k) == "";
  }

  /** A line of the definitions section. */
  method ReadDefinition(lines: seq<string>, i: nat, line: string, st: Reader) returns (r: Result<(Reader, nat)>)
    requires i < |lines|
    ensures r == DefinitionStep(lines, i, line, st)
  {
    if StartsWith(line, "%{") {
      var next := SkipCodeBlock(lines, i + 1);
      return Ok((st, next));
    }
    var space := IndexOf(line, ' ');
    if space.None? {
      return Ok((st, i + 1));
    }
    var name := Trim(line[..space.value]);
    var value := Trim(line[space.value..]);
    var expanded := ExpandMacros(value, st.definitions);
    if expanded.Err? {
      return Err(expanded.error);
    }
    r := Ok((st.(definitions := st.definitions[name := expanded.value]), i + 1));
  }

  /** A line inside an open action block. */
  method AddBlockLine(st: Reader, line: string) returns (r: Reader)
    ensures r == BlockLine(st, line)
  {
    var acc := st.accumulator + line + "\n";
    var depth, closed := ScanBlockLine(line, st.braces);
    if closed {
      var rules := Tables.EmitPending(st.rules, st.pending, acc);
      r := st.(rules := rules, pending := [], accumulator := "", inBlock := false, braces := 0);
    } else {
      r := st.(accumulator := acc, braces := depth);
    }
  }

  /** A rule line outside a block, once split. */
  method AddRule(st: Reader, pattern: string, action: string, lineNumber: nat) returns (r: Reader)
    ensures r == RuleLine(st, pattern, action, lineNumber)
  {
    if action == "|" {
      return st.(pending := st.pending + [Tables.Pending(pattern, lineNumber)]);
    }
    if StartsWith(action, "{") {
      var acc := action + "\n";
      var braces := OpeningBraces(action);
      if braces > 0 {
        var pending := st.pending;
        if pending == [] {
          pending := [Tables.Pending(pattern, lineNumber)];
        }
        r := st.(accumulator := acc, braces := braces, inBlock := true, pending := pending);
      } else if st.pending != [] {
        var rules := Tables.EmitPending(st.rules, st.pending, acc);
        r := st.(rules := rules, pending := [], accumulator := "", braces := braces);
      } else {
        r := st.(rules := st.rules + [Tables.Rule(pattern, acc)], accumulator := "", braces := braces);
      }
      return;
    }
    var rules := Tables.EmitPending(st.rules, st.pending, action);
    r := st.(rules := rules + [Tables.Rule(pattern, action)], pending := []);
  }

  /** A line of the rules section. */
  method ReadRule(path: string, i: nat, line: string, st: Reader) returns (r: Result<Reader>)
    ensures r == RulesStep(path, i, line, st)
  {
    if st.inBlock {
      var next := AddBlockLine(st, line);
      return Ok(next);
    }
    var space := IndexOfWhitespace(line);
    if space.None? {
      return Err(MalformedError(path, i + 1));
    }
    var action := Trim(line[space.value..]);
    var pattern := ExpandMacros(Trim(line[..space.value]), st.definitions);
    if pattern.Err? {
      return Err(pattern.error);
    }
    var next := AddRule(st, pattern.value, action, i + 1);
    r := Ok(next);
  }

  /** One round of the line loop. */
  method ReadLine(path: string, lines: seq<string>, i: nat, st: Reader) returns (r: Result<(Reader, nat)>)
    requires i < |lines|
    ensures r == Step(path, lines, i, st)
  {
    var line := Trim(lines[i]);
    if line == "%%" {
      match st.section {
        case Definitions => r := Ok((st.(section := Rules), i + 1));
        case Rules => r := Ok((st.(section := Code), i + 1));
        case Code => r := Err(SeparatorError(i + 1));
      }
      return;
    }
    if Skipped(line) {
      return Ok((st, i + 1));
    }
    match st.section
    case Definitions =>
      r := ReadDefinition(lines, i, line, st);
    case Rules =>
      var next := ReadRule(path, i, line, st);
      if next.Err? {
        return Err(next.error);
      }
      r := Ok((next.value, i + 1));
    case Code =>
      var code := CollectCode(st.code, lines, i + 1);
      r := Ok((st.(code := code), |lines|));
  }

  /** `LexFile::new` from the split lines on. */
  method NewLexFile(path: string, lines: seq<string>) returns (r: Result<LexFile>)
    ensures r == FileOf(path, lines)
  {
    var st := Start;
    var i := 0;
    while i < |lines|
      invariant i <= |lines|
      invariant Run(path, lines, i, st) == Run(path, lines, 0, Start)
      decreases |lines| - i
    {
      var step := ReadLine(path, lines, i, st);
      if step.Err? {
        return Err(step.error);
      }
      st, i := step.value.0, step.value.1;
    }
    if st.pending != [] {
      return Err(PendingError(path, st.pending[0].lineNumber));
    }
    if st.inBlock {
      return Err(UnclosedError(path));
    }
    r := Ok(LexFile(st.definitions, st.rules, st.code));
  }

  // ---------------------------------------------------------------------
  // What the loop promises
  // ---------------------------------------------------------------------

  /** A `%{` block ends after its first closing line; without one it runs
      to the end of the file. */
  lemma {:induction false} BlockEndFirst(lines: seq<string>, j: nat)
    requires j <= |lines|
    ensures var r := BlockEnd(lines, j);
      || (r == |lines| && forall k :: j <= k < |lines| ==> !Closes(lines[k]))
      || (j < r && Closes(lines[r - 1]) && forall k :: j <= k < r - 1 ==> !Closes(lines[k]))
    decreases |lines| - j
  {
    if j == |lines| {
    } else if Closes(lines[j]) {
      assert BlockEnd(lines, j) == j + 1;
    } else {
      BlockEndFirst(lines, j + 1);
      assert BlockEnd(lines, j) == BlockEnd(lines, j + 1);
    }
  }

  lemma NetCons(s: string, k: nat)
    requires 0 < k <= |s|
    ensures Net(s[..k]) == Net([s[0]]) + Net(s[1..][..k - 1])
  {
    assert s[..k] == [s[0]] + s[1..][..k - 1];
  }

  /** The brace loop of an open block reports a close only when some
      prefix of the line ending in `}` brings the depth to zero. */
  lemma {:induction false} BlockScanCloses(s: string, braces: int)
    requires braces >= 1 && BlockScan(s, braces).1
    ensures exists k :: 0 < k <= |s| && s[k - 1] == '}' && braces + Net(s[..k]) == 0
    decreases |s|
  {
    var b := braces + Net([s[0]]);
    if s[0] == '}' && braces - 1 == 0 {
      assert s[..1] == [s[0]];
    } else {
      assert BlockScan(s, braces) == BlockScan(s[1..], b);
      BlockScanCloses(s[1..], b);
      var k :| 0 < k <= |s[1..]| && s[1..][k - 1] == '}' && b + Net(s[1..][..k]) == 0;
      NetCons(s, k + 1);
      assert s[1..][..k] == s[1..][..k + 1 - 1];
      assert s[k + 1 - 1] == '}' && braces + Net(s[..k + 1]) == 0;
    }
  }

  /** Otherwise the loop ends at the depth of the whole line, and every
      prefix of the line leaves the block open. */
  lemma {:induction false} BlockScanOpen(s: string, braces: int)
    requires braces >= 1 && !BlockScan(s, braces).1
    ensures BlockScan(s, braces).0 == braces + Net(s)
    ensures forall k :: 0 < k <= |s| ==> braces + Net(s[..k]) > 0
    decreases |s|
  {
    if s != [] {
      var b := braces + Net([s[0]]);
      assert s == [s[0]] + s[1..];
      assert BlockScan(s, braces) == BlockScan(s[1..], b);
      BlockScanOpen(s[1..], b);
      forall k | 0 < k <= |s| ensures braces + Net(s[..k]) > 0 {
        NetCons(s, k);
        if k > 1 {
          assert b + Net(s[1..][..k - 1]) > 0;
        }
      }
    }
  }

  /** Appending a line appends it, with its line feed, to the code. */
  lemma {:induction false} CodeOfAppend(lines: seq<string>, line: string, j: nat)
    requires j <= |lines|
    ensures CodeOf(lines + [line], j) == CodeOf(lines, j) + line + "\n"
    decreases |lines| - j
  {
    if j == |lines| {
      assert CodeOf(lines + [line], j + 1) == "";
    } else {
      var head := lines[j] + "\n";
      var rest := CodeOf(lines, j + 1);
      assert (lines + [line])[j] == lines[j];
      CodeOfAppend(lines, line, j + 1);
      assert CodeOf(lines + [line], j) == head + (rest + line + "\n");
      assert head + (rest + line + "\n") == (head + rest) + line + "\n";
    }
  }

  /** In the code section, the first line that is not skipped is dropped and
      every later one is copied as it is, even a `%%`: nothing after it can
      fail. */
  lemma CodeSectionCopies(path: string, lines: seq<string>, i: nat, st: Reader)
    requires i < |lines| && st.section == Code
    requires Trim(lines[i]) != "%%" && !Skipped(Trim(lines[i]))
    ensures Run(path, lines, i, st) == Ok(st.(code := st.code + CodeOf(lines, i + 1)))
  {
  }

  /** Blank and comment lines are passed over in every section, even inside
      an open action block. */
  lemma SkippedLine(path: string, lines: seq<string>, i: nat, st: Reader)
    requires i < |lines| && Skipped(Trim(lines[i]))
    ensures Run(path, lines, i, st) == Run(path, lines, i + 1, st)
  {
    assert !Skipped("%%") by { assert "%%"[..1] == "%" && "%%"[..2] == "%%"; }
    assert Step(path, lines, i, st) == Ok((st, i + 1));
  }

  /** An open block always has a queued pattern: the one of its first line,
      or those queued before it. */
  ghost predicate BlockQueued(st: Reader)
  {
    st.inBlock ==> st.pending != []
  }

  /** Errors of the loop: a separator in the code section, a malformed
      rule, or a macro expansion that gave up. */
  ghost predicate LoopError(path: string, e: string)
  {
    || (exists n: nat :: e == SeparatorError(n))
    || (exists n: nat :: e == MalformedError(path, n))
    || (exists p: string :: e == CircularError(p))
  }

  /** No loop error is the unclosed-block message: the separator and
      circular-reference messages start with another letter, and a
      malformed-rule message has a `:` where it has a space. */
  lemma LoopErrorNotUnclosed(path: string, e: string)
    requires LoopError(path, e)
    ensures e != UnclosedError(path)
  {
    if n: nat :| e == SeparatorError(n) {
      SeparatorNotUnclosed(path, n);
    } else if n: nat :| e == MalformedError(path, n) {
      MalformedNotUnclosed(path, n);
    } else {
      var p: string :| e == CircularError(p);
      CircularNotUnclosed(path, p);
    }
  }

  lemma UnclosedShape(path: string)
    ensures UnclosedError(path)[0] == 'E' && UnclosedError(path)[7 + |path|] == ' '
  {
    assert UnclosedError(path) == "Error: " + path + (" - Unclosed action block");
  }

  lemma SeparatorNotUnclosed(path: string, n: nat)
    ensures SeparatorError(n) != UnclosedError(path)
  {
    var head := "Unexpected section separator at line ";
    assert head[0] == 'U';
    assert SeparatorError(n)[0] == head[0];
    UnclosedShape(path);
  }

  lemma MalformedNotUnclosed(path: string, n: nat)
    ensures MalformedError(path, n) != UnclosedError(path)
  {
    assert MalformedError(path, n) == "Error: " + path + ":" + (NatToString(n) + " - Malformed rule");
    UnclosedShape(path);
  }

  lemma CircularNotUnclosed(path: string, p: string)
    ensures CircularError(p) != UnclosedError(path)
  {
    var head := "Potential circular reference in macro definitions for pattern: ";
    assert head == "Potential circular reference " + "in macro definitions for pattern: ";
    assert "Potential circular reference "[0] == 'P';
    assert CircularError(p)[0] == head[0];
    UnclosedShape(path);
  }


  lemma RuleLineKeeps(st: Reader, pattern: string, action: string, lineNumber: nat)
    requires !st.inBlock
    ensures var r := RuleLine(st, pattern, action, lineNumber);
      st.rules <= r.rules && BlockQueued(r)
  {
  }

  lemma BlockLineKeeps(st: Reader, line: string)
    requires BlockQueued(st)
    ensures var r := BlockLine(st, line);
      st.rules <= r.rules && BlockQueued(r)
  {
  }

  lemma RulesStepKeeps(path: string, i: nat, line: string, st: Reader)
    requires BlockQueued(st)
    ensures var r := RulesStep(path, i, line, st);
      && (r.Ok? ==> st.rules <= r.value.rules && BlockQueued(r.value))
      && (r.Err? ==> LoopError(path, r.error))
  {
    if st.inBlock {
      BlockLineKeeps(st, line);
    } else {
      var space := IndexOfWhitespace(line);
      if space.None? {
        assert RulesStep(path, i, line, st) == Err(MalformedError(path, i + 1));
      } else {
        var pattern := ExpandOf(Trim(line[..space.value]), st.definitions);
        if pattern.Ok? {
          RuleLineKeeps(st, pattern.value, Trim(line[space.value..]), i + 1);
        }
      }
    }
  }

  lemma DefinitionStepKeeps(lines: seq<string>, i: nat, line: string, st: Reader)
    requires i < |lines|
    ensures var r := DefinitionStep(lines, i, line, st);
      && (r.Ok? ==> r.value.0.rules == st.rules && r.value.0.pending == st.pending
                    && r.value.0.inBlock == st.inBlock)
      && (r.Err? ==> exists p: string :: r.error == CircularError(p))
  {
  }

  /** One round of the loop appends to the rules, keeps an open block
      queued, and fails only with a loop error. */
  lemma StepKeeps(path: string, lines: seq<string>, i: nat, st: Reader)
    requires i < |lines| && BlockQueued(st)
    ensures var r := Step(path, lines, i, st);
      && (r.Ok? ==> st.rules <= r.value.0.rules && BlockQueued(r.value.0))
      && (r.Err? ==> LoopError(path, r.error))
  {
    var line := Trim(lines[i]);
    if line != "%%" && !Skipped(line) {
      match st.section
      case Definitions => DefinitionStepKeeps(lines, i, line, st);
      case Rules => RulesStepKeeps(path, i, line, st);
      case Code =>
    }
  }

  lemma {:induction false} RunKeepsQueued(path: string, lines: seq<string>, i: nat, st: Reader)
    requires i <= |lines| && BlockQueued(st)
    ensures Run(path, lines, i, st).Ok? ==> BlockQueued(Run(path, lines, i, st).value)
    decreases |lines| - i
  {
    if i < |lines| {
      StepKeeps(path, lines, i, st);
      var next := Step(path, lines, i, st);
      if next.Ok? {
        RunKeepsQueued(path, lines, next.value.1, next.value.0);
      }
    }
  }

  /** A file that ends inside an action block is reported as a pattern
      without action, at the first queued line: the queue check comes first
      and is never empty then. */
  lemma OpenBlockReported(path: string, lines: seq<string>)
    ensures var r := Run(path, lines, 0, Start);
      r.Ok? && r.value.inBlock ==>
        r.value.pending != [] && FileOf(path, lines) == Err(PendingError(path, r.value.pending[0].lineNumber))
  {
    RunKeepsQueued(path, lines, 0, Start);
  }

  /** The loop fails only with one of its three messages. */
  lemma {:induction false} RunErrors(path: string, lines: seq<string>, i: nat, st: Reader)
    requires i <= |lines| && BlockQueued(st)
    ensures Run(path, lines, i, st).Err? ==> LoopError(path, Run(path, lines, i, st).error)
    decreases |lines| - i
  {
    if i < |lines| {
      StepKeeps(path, lines, i, st);
      var next := Step(path, lines, i, st);
      if next.Ok? {
        RunErrors(path, lines, next.value.1, next.value.0);
      }
    }
  }

  /** The check for an open block can never fire: no outcome of
      `LexFile::new` is the "Unclosed action block" error. */
  lemma UnclosedNeverReported(path: string, lines: seq<string>)
    ensures FileOf(path, lines) != Err(UnclosedError(path))
  {
    var u := UnclosedError(path);
    assert u == "Error: " + path + (" - Unclosed action block");
    assert u[0] == 'E' && u[7 + |path|] == ' ';
    RunKeepsQueued(path, lines, 0, Start);
    RunErrors(path, lines, 0, Start);
    var r := Run(path, lines, 0, Start);
    if r.Err? {
      LoopErrorNotUnclosed(path, r.error);
    } else if r.value.pending != [] {
      var e := PendingError(path, r.value.pending[0].lineNumber);
      assert e == "Error: " + path + ":" + (NatToString(r.value.pending[0].lineNumber) + " - Pattern without action");
      assert e[7 + |path|] == ':';
    }
  }

  /** Rules are only ever appended. */
  lemma {:induction false} RunExtends(path: string, lines: seq<string>, i: nat, st: Reader)
    requires i <= |lines| && BlockQueued(st)
    ensures Run(path, lines, i, st).Ok? ==> st.rules <= Run(path, lines, i, st).value.rules
    decreases |lines| - i
  {
    if i < |lines| {
      StepKeeps(path, lines, i, st);
      var next := Step(path, lines, i, st);
      if next.Ok? {
        RunExtends(path, lines, next.value.1, next.value.0);
      }
    }
  }

  // ---------------------------------------------------------------------
  // Examples
  // ---------------------------------------------------------------------

  /** The `%%` line that opens the rules section. */
  lemma EnterRules(path: string, lines: seq<string>)
    requires |lines| > 0 && lines[0] == "%%"
    ensures Step(path, lines, 0, Start) == Ok((Start.(section := Rules), 1))
  {
    TrimClean("%%");
  }

  /** A third `%%` before any code is an error naming its line. */
  lemma SeparatorExample(path: string)
    ensures FileOf(path, ["%%", "%%", "%%"]) == Err(SeparatorError(3))
  {
    var lines := ["%%", "%%", "%%"];
    EnterRules(path, lines);
    var st := Start.(section := Rules);
    assert Step(path, lines, 1, st) == Ok((st.(section := Code), 2));
    assert Step(path, lines, 2, st.(section := Code)) == Err(SeparatorError(3));
  }

  /** Text without whitespace, not starting a comment or a block. */
  predicate Word(w: string)
  {
    && w != []
    && (forall k :: 0 <= k < |w| ==> !IsWhitespace(w[k]))
    && w[0] != '/' && w[0] != '#' && w[0] != '%'
  }

  /** A line `w rest` whose first word is `w` is its own trim, and is
      neither `%%`, nor skipped, nor a `%{` line. */
  lemma WordLineKind(w: string, rest: string)
    requires Word(w) && rest != [] && !IsWhitespace(rest[0]) && !IsWhitespace(rest[|rest| - 1])
    ensures var line := w + [' '] + rest;
      Trim(line) == line && line != "%%" && !Skipped(line) && !StartsWith(line, "%{")
  {
    var line := w + [' '] + rest;
    TrimClean(line);
    assert line[0] == w[0];
    assert line[|w|] == ' ';
  }

  /** Such a line splits at the end of `w`, into `w` and `rest`. */
  lemma WordLineSplit(w: string, rest: string)
    requires Word(w) && rest != [] && !IsWhitespace(rest[0]) && !IsWhitespace(rest[|rest| - 1])
    ensures var line := w + [' '] + rest;
      && IndexOfWhitespace(line) == Some(|w|) && IndexOf(line, ' ') == Some(|w|)
      && Trim(line[..|w|]) == w && Trim(line[|w|..]) == rest
  {
    var line := w + [' '] + rest;
    TrimClean(w);
    assert line[..|w|] == w;
    assert line[|w|..] == [' '] + rest;
    TrimSpaced(rest);
    assert line[|w|] == ' ';
    assert ' ' !in line[..|w|];
  }

  /** The shape of a line `w rest` whose first word is `w`. */
  lemma WordLine(w: string, rest: string)
    requires Word(w) && rest != [] && !IsWhitespace(rest[0]) && !IsWhitespace(rest[|rest| - 1])
    ensures var line := w + [' '] + rest;
      && Trim(line) == line && line != "%%" && !Skipped(line) && !StartsWith(line, "%{")
      && IndexOfWhitespace(line) == Some(|w|) && IndexOf(line, ' ') == Some(|w|)
      && Trim(line[..|w|]) == w && Trim(line[|w|..]) == rest
  {
    WordLineKind(w, rest);
    WordLineSplit(w, rest);
  }

  /** A line `w action` of the rules section, outside a block, whose first
      word expands to itself. */
  ghost predicate RuleAt(lines: seq<string>, i: nat, st: Reader, w: string, action: string)
  {
    && i < |lines| && lines[i] == w + [' '] + action
    && Word(w) && action != [] && !IsWhitespace(action[0]) && !IsWhitespace(action[|action| - 1])
    && st.section == Rules && !st.inBlock && ExpandOf(w, st.definitions) == Ok(w)
  }

  /** A rule line without whitespace is malformed, and names its line. */
  lemma MalformedLine(path: string, lines: seq<string>, i: nat, st: Reader)
    requires i < |lines| && Word(lines[i]) && st.section == Rules && !st.inBlock
    ensures Step(path, lines, i, st) == Err(MalformedError(path, i + 1))
  {
    var w := lines[i];
    TrimClean(w);
    assert w[..1][0] == w[0];
    assert |w| >= 2 ==> w[..2][0] == w[0];
    assert w != "%%" by { assert "%%"[0] == '%'; }
  }

  /** A rule line is read as its first word and the rest. */
  lemma RuleLineRead(path: string, lines: seq<string>, i: nat, st: Reader, w: string, action: string)
    requires RuleAt(lines, i, st, w, action)
    ensures Step(path, lines, i, st) == Ok((RuleLine(st, w, action, i + 1), i + 1))
  {
    WordLine(w, action);
  }

  /** The action `|` queues the pattern and emits nothing. */
  lemma QueueLine(path: string, lines: seq<string>, i: nat, st: Reader, w: string)
    requires RuleAt(lines, i, st, w, "|")
    ensures Step(path, lines, i, st) ==
      Ok((st.(pending := st.pending + [Tables.Pending(w, i + 1)]), i + 1))
  {
    RuleLineRead(path, lines, i, st, w, "|");
  }

  /** A plain action goes to every queued pattern in order, then to the
      line's own pattern, and the queue empties. */
  lemma PlainActionLine(path: string, lines: seq<string>, i: nat, st: Reader, w: string, action: string)
    requires RuleAt(lines, i, st, w, action) && action != "|" && action[0] != '{'
    ensures Step(path, lines, i, st) ==
      Ok((st.(rules := st.rules + Tables.RulesFor(st.pending, action) + [Tables.Rule(w, action)], pending := []),
          i + 1))
  {
    RuleLineRead(path, lines, i, st, w, action);
    PlainAction(st, w, action, i + 1);
  }

  lemma PlainAction(st: Reader, w: string, action: string, n: nat)
    requires action != [] && action != "|" && action[0] != '{'
    ensures RuleLine(st, w, action, n) ==
      st.(rules := st.rules + Tables.RulesFor(st.pending, action) + [Tables.Rule(w, action)], pending := [])
  {
    assert !StartsWith(action, "{") by { assert action[..1][0] == action[0]; }
  }

  /** A brace action that balances on its own line goes, with a line feed,
      to the queued patterns when there are some (the line's own pattern
      then gets nothing), and to the line's pattern otherwise. */
  lemma BraceActionLine(path: string, lines: seq<string>, i: nat, st: Reader, w: string, action: string)
    requires RuleAt(lines, i, st, w, action) && action[0] == '{' && 1 + Net(action[1..]) <= 0
    ensures Step(path, lines, i, st) ==
      Ok((st.(rules := st.rules + (if st.pending != [] then Tables.RulesFor(st.pending, action + "\n")
                                   else [Tables.Rule(w, action + "\n")]),
              pending := [], accumulator := "", braces := 1 + Net(action[1..])),
          i + 1))
  {
    RuleLineRead(path, lines, i, st, w, action);
    assert action != "|";
  }

  /** A brace action left open starts a block, queueing the line's pattern
      unless others are already queued. */
  lemma OpenBlockLine(path: string, lines: seq<string>, i: nat, st: Reader, w: string, action: string)
    requires RuleAt(lines, i, st, w, action) && action[0] == '{' && 1 + Net(action[1..]) > 0
    ensures Step(path, lines, i, st) ==
      Ok((st.(accumulator := action + "\n", braces := 1 + Net(action[1..]), inBlock := true,
              pending := if st.pending == [] then [Tables.Pending(w, i + 1)] else st.pending),
          i + 1))
  {
    RuleLineRead(path, lines, i, st, w, action);
    assert action != "|";
  }

  /** A line inside a block that is neither `%%` nor skipped joins the
      block. */
  lemma InBlockLine(path: string, lines: seq<string>, i: nat, st: Reader)
    requires i < |lines| && st.section == Rules && st.inBlock
    requires Trim(lines[i]) != "%%" && !Skipped(Trim(lines[i]))
    ensures Step(path, lines, i, st) == Ok((BlockLine(st, Trim(lines[i])), i + 1))
  {
  }

  /** A definition line binds its first word to the expansion of the rest. */
  lemma DefinitionLine(path: string, lines: seq<string>, i: nat, st: Reader, name: string, value: string)
    requires i < |lines| && lines[i] == name + [' '] + value
    requires Word(name) && value != [] && !IsWhitespace(value[0]) && !IsWhitespace(value[|value| - 1])
    requires st.section == Definitions
    ensures Step(path, lines, i, st) ==
      match ExpandOf(value, st.definitions)
      case Err(e) => Err(e)
      case Ok(v) => Ok((st.(definitions := st.definitions[name := v]), i + 1))
  {
    WordLine(name, value);
  }

  lemma ExpandNothing(pattern: string)
    ensures ExpandOf(pattern, map[]) == Ok(pattern)
  {
    NoReferences(pattern, map[]);
  }
}
