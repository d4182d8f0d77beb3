# lex — a verified model of the lexer generator's core

`lex` reads a lex-style specification file and writes a C scanner. The file
has three sections separated by `%%` lines. Definitions bind names to
regular expressions (`D [0-9]`), and `{D}` expands them. Rules pair a
pattern with a C action (`{D}+ { return NUM; }`). In the code section
the first line that is neither blank nor a comment is dropped, and every
line after it is copied through, each followed by a line feed.

Each pattern is compiled in four steps:

1. The regex parser (`src/regex.rs`) turns the pattern into an NFA by
   Thompson's construction (`src/nfa.rs`).
2. The NFA is turned into a DFA by the subset construction (`src/dfa.rs`).
3. The code generator (`src/code.rs`) writes the DFA out as C `switch`
   tables around a fixed `yylex()` driver.
4. The DFA can also scan a string directly by longest match (`simulate`).

This project models those pieces in Dafny:

- **Value-like Rust data** becomes Dafny datatypes. This covers `NFA`,
  `DFA`, `Symbol`, rules and the lex file, all of which are cloned, moved
  into combinators and compared structurally.
- **The regex parser** (a struct with a mutable cursor) becomes a class.
- **Loops** become methods with loop invariants. Each method is proved
  equal to a declarative specification function.
- **Lemmas** then prove what those functions mean: well-formedness of every
  automaton, closure properties, the subset-automaton invariant, the
  longest-match property, and what the generated switch statements answer.

Modules:

- `Base`: Option and Result, ranges, min/max, ascending listings.
- `Text`: trimming, searching, replacement, decimal numerals, string order.
- `Symbols`: `Symbol` and its order and display.
- `Nfas`: the NFA value and `add_state`/`add_transition`, plus `concat`,
  `union`, `kleene`, `optional` and `plus`.
- `Closures`: `epsilon_closure`.
- `Patterns`: the `Regex` tree.
- `Thompson`: the one-edge fragments, `is_empty`, the folds, `bounded` and
  `From<Regex>`.
- `Regexes`: the regex parser.
- `Dfas`: the subset construction, `minimize` and the scanner.
- `Tables`: `src/rule.rs`.
- `Macros`: `expand_macros`.
- `LexFiles`: `LexFile::new`.
- `CodeGen`: `src/code.rs`.

## Model

| member | source | states |
|---|---|---|
| Symbols.SortedChars | src/symbol.rs:16-22 | A `BTreeSet<char>` is listed in strictly ascending order, with exactly its members. |
| Symbols.SortedCharsInjective | src/symbol.rs:16-22 | Different character sets give different listings. |
| Symbols.DisplayCharClass | src/symbol.rs:16-22 | A class displays as `[`, its members in ascending order, then `]`. |
| Symbols.DisplayCharClassInjective | src/symbol.rs:16-22 | Two classes with the same display are the same class. |
| Symbols.LessIrreflexive | src/symbol.rs:4-9 | The derived order on symbols (Epsilon < Char < CharClass, then by content) is irreflexive. |
| Symbols.LessTransitive | src/symbol.rs:4-9 | The derived symbol order is transitive. |
| Symbols.LessTotal | src/symbol.rs:4-9 | Any two different symbols are ordered one way or the other. |
| Text.TrimShape | src/file.rs:46 | `trim` removes a whitespace prefix and suffix and leaves no whitespace at either end. |
| Text.TrimIdempotent | src/file.rs:46 | Trimming twice is the same as trimming once. |
| Text.TrimClean | src/rule.rs:28 | A line with no whitespace at either end is left unchanged. |
| Text.IndexOf | src/file.rs:86 | `find(' ')` gives the first space, or nothing when there is no space. |
| Text.IndexOfWhitespace | src/file.rs:137 | `find(is_whitespace)` gives the first whitespace character, or nothing. |
| Text.ReplaceAbsent | src/file.rs:271-272 | Replacing a pattern that does not occur changes nothing. |
| Text.ReplaceKeepsSelfReference | src/file.rs:271-272 | If the replacement contains the pattern, the result still contains it. |
| Text.NatToString | src/code.rs:75 | `{}` on a number gives a non-empty decimal numeral with no leading zero. |
| Text.NatToStringRoundTrip | src/code.rs:75 | Reading the numeral back gives the number. |
| Text.NatToStringInjective | src/code.rs:75 | Different numbers print differently. |
| Text.SortedStrings | src/file.rs:269 | The keys of a `BTreeMap<String, _>` are listed once each, in strictly increasing lexicographic order. |
| Text.LexLessTransitive | src/file.rs:269 | The string order used by `BTreeMap` is transitive. |
| Text.LexLessTotal | src/file.rs:269 | The string order is total. |
| Nfas.EdgesOfFromEdges | src/nfa.rs:111-128 | A transition map built from an edge set has exactly those edges and no empty target set. |
| Nfas.FromEdgesOfEdges | src/nfa.rs:111-128 | A map without empty target sets is determined by its edges. |
| Nfas.AddState | src/nfa.rs:95-105 | The new id is 0 in an empty automaton, otherwise one past the largest state; only that state is added. |
| Nfas.AddAction | src/nfa.rs:107-109 | The state's action is set and every other action is kept. |
| Nfas.AddTransition | src/nfa.rs:111-128 | Exactly the edge (from, symbol, to) is added, and the symbol's characters join the alphabet. |
| Nfas.RenumProperties | src/nfa.rs:192-208 | Copying states in ascending order onto a dense arena is injective, lands in offset..offset+n-1, and keeps the order. |
| Nfas.ShiftIsRenum | src/nfa.rs:232-237 | Copying actions state by state gives each renumbered state its original action. |
| Nfas.CopyStates | src/nfa.rs:192-208 | The state-copy loop extends 0..k-1 to 0..k+n-1, maps by rank, and carries the actions over. |
| Nfas.CopyTransitions | src/nfa.rs:212-222 | The transition-copy loops add exactly the renumbered edges of the operand, and its characters join the alphabet. |
| Nfas.LinkFinals | src/nfa.rs:224-230 | The loop adds one ε-edge from every renumbered final state to the target. |
| Nfas.MarkConcatFinals | src/nfa.rs:232-237 | The final states are those of the second operand, renumbered; their actions are already in place. |
| Nfas.Concat | src/nfa.rs:189-243 | `concat` builds `ConcatOf`: both operands renumbered, ε-links from the first's finals to the second's start, the first's start, the second's finals, and both operands' actions. |
| Nfas.ConcatWellFormed | src/nfa.rs:189-243 | `concat` of two valid automata is well formed: dense ids, edges and finals inside the states, every consumed character in the alphabet. |
| Nfas.Union | src/nfa.rs:257-305 | `union` builds `UnionOf`: a fresh start 0 forking by ε into both renumbered operands, with the finals and actions of both. |
| Nfas.UnionWellFormed | src/nfa.rs:257-305 | `union` of two valid automata is well formed. |
| Nfas.KleeneLinks | src/nfa.rs:331-334 | Every inner final state gets an ε-edge back to the inner start and one to the new end. |
| Nfas.Kleene | src/nfa.rs:307-339 | `kleene` builds `KleeneOf`: a new start and end, with start→inner start, start→end, and finals→inner start and finals→end; actions are dropped. |
| Nfas.KleeneWellFormed | src/nfa.rs:307-339 | `kleene` of a valid automaton is well formed. |
| Nfas.Optional | src/nfa.rs:347-379 | `optional` builds `OptionalOf`: as `kleene`, but with no edge back to the inner start. |
| Nfas.OptionalWellFormed | src/nfa.rs:347-379 | `optional` of a valid automaton is well formed. |
| Nfas.Plus | src/nfa.rs:341-345 | `plus` is the operand concatenated with its Kleene star. |
| Closures.ClosureOfIs | src/nfa.rs:414-429 | `ClosureOf(s)` is the least ε-closed set containing `s`. |
| Closures.ClosureUnique | src/nfa.rs:414-429 | There is only one least ε-closed superset. |
| Closures.ClosureOfClosed | src/nfa.rs:414-429 | A set is its own closure exactly when it is ε-closed. |
| Closures.ClosureIdempotent | src/nfa.rs:414-429 | Closing twice is the same as closing once. |
| Closures.ClosureMonotone | src/nfa.rs:414-429 | A larger set has a larger closure. |
| Closures.InsertSuccessors | src/nfa.rs:419-424 | The closure grows by the ε-successors, and exactly the new ones are pushed. |
| Closures.EpsilonClosure | src/nfa.rs:414-429 | The worklist loop returns the least ε-closed superset of the input set. |
| Thompson.AsciiMembers | src/nfa.rs:166-175 | The ASCII set is the characters with codes below 128. |
| Thompson.SingleEdgeShape | src/nfa.rs:130-164 | A one-edge fragment has states {0,1}, start 0, final 1, the single edge 0 -sym-> 1, and is well formed. |
| Thompson.Empty | src/nfa.rs:130-140 | `empty` is the one-edge fragment on ε. |
| Thompson.CharNfa | src/nfa.rs:142-152 | `char` is the one-edge fragment on the character. |
| Thompson.CharClassNfa | src/nfa.rs:154-164 | `char_class` is the one-edge fragment on the class. |
| Thompson.NegatedCharClass | src/nfa.rs:166-175 | `negated_char_class` is the one-edge fragment on the ASCII characters outside the class. |
| Thompson.Dot | src/nfa.rs:381-388 | `dot` is the one-edge fragment on the whole ASCII class. |
| Thompson.IsEmptyShape | src/nfa.rs:91-93 | `is_empty` holds exactly for automata equal to `empty()`. |
| Thompson.ConcatMultiples | src/nfa.rs:177-187 | `concat_multiples` is the left fold of `concat`: empty for no operand, the operand itself for one. |
| Thompson.ConcatMultiplesValid | src/nfa.rs:177-187 | The fold of valid automata is valid, and well formed unless it is a single operand that is not. |
| Thompson.ConcatFoldSize | src/nfa.rs:177-187 | The fold's state count is the sum of the operands' counts. |
| Thompson.UnionMultiples | src/nfa.rs:245-255 | `union_multiples` is the left fold of `union`. |
| Thompson.UnionFoldSize | src/nfa.rs:245-255 | The fold's state count is the sum of the operands' counts plus one new start per step. |
| Thompson.Bounded | src/nfa.rs:390-412 | `bounded` is the star alone for `{0,}`. Otherwise it is `min` concatenated copies (`empty()` for none), followed by the star when there is no maximum, or by max-min optional copies when max exceeds min. |
| Thompson.BoundedWellFormed | src/nfa.rs:390-412 | `bounded` of a well-formed automaton is well formed. |
| Thompson.BoundedRangeSize | src/nfa.rs:390-412 | With min < max, the states are those of the leading copies plus those of the optionals. |
| Thompson.OptionalsSize | src/nfa.rs:404-409 | `count` optional copies hold count·(n+2) states. |
| Thompson.FromRegex | src/nfa.rs:61-80 | `From<Regex>` builds `NfaOf(re)`, the structural translation of each variant into its combinator. |
| Thompson.NfaOfWellFormed | src/nfa.rs:61-80 | The NFA of every regex tree is well formed. |
| Regexes.CharRange | src/regex.rs:160-167 | A range holds exactly the characters between its ends, inclusive. |
| Regexes.Postfix | src/regex.rs:115-135 | `parse_operators` consumes one `*`, `+` or `?` and wraps the operand accordingly; otherwise it consumes nothing and returns the operand. |
| Regexes.ClassItems | src/regex.rs:147-184 | A successful class scan stops at a `]` and keeps every member already collected. |
| Regexes.ClassOf | src/regex.rs:137-204 | A successful `parse_char_class` ends just past a `]` and yields a character class. |
| Regexes.ParseSeq | src/regex.rs:24-113 | A successful `parse_regex` stops at the end of the input or at a `)`. |
| Regexes.EmptyIff | src/regex.rs:42-46 | Every parsed tree's NFA passes `is_empty` exactly when the tree is `Empty`. |
| Regexes.AppendOperand | src/regex.rs:42-46 | The `is_empty` test: the first operand replaces the empty accumulator, later ones are concatenated. |
| Regexes.ParseSeqTrees | src/regex.rs:24-113 | Every tree the parser returns is built only from the parser's variants. |
| Regexes.OperatorAsOperand | src/regex.rs:81-101 | A leading `*`, `+` or `?` is taken as a literal character. |
| Regexes.DoubleStarExample | src/regex.rs:115-135 | `a**` parses as `(a*)` followed by a literal `*`. |
| Regexes.UnionExample | src/regex.rs:48-52 | `a\|bc` parses as `a` united with `bc`: `\|` takes everything to its right. |
| Regexes.EscapeExamples | src/regex.rs:64-71 | A trailing `\` is an error, and `\*` is the literal `*`. |
| Regexes.RefusedExample | src/regex.rs:82-84 | An unescaped `]` is refused with its message. |
| Regexes.UnclosedExample | src/regex.rs:34-36 | `(a` fails with "Unmatched parenthesis". |
| Regexes.RangeExample | src/regex.rs:148-169 | `[a-c]` is the class {a,b,c}. |
| Regexes.NegationExample | src/regex.rs:189-198 | `[^a]` is the ASCII characters other than `a`. |
| Regexes.ClassErrorExamples | src/regex.rs:156-158 | A reversed range and an unterminated class fail with their messages. |
| Regexes.OperandErrors | src/regex.rs:30-84 | At any position: a `\` fails with "Escape at end of regex" exactly when it is the last character; a `)`, `]` or bar reached as an operand is refused by name; a group fails with "Unmatched parenthesis" exactly when its inside runs to the end of the pattern. |
| Regexes.OperandErrorStops | src/regex.rs:28-110 | An operand's error ends the whole level with the same message. |
| Regexes.InvalidRange | src/regex.rs:148-158 | A range `x-y` with `x > y` met in a class fails with "Invalid range: x-y", whatever was gathered before. |
| Regexes.ClassItemsErrors | src/regex.rs:147-184 | The class loop fails only with "Unterminated character class" or with "Invalid range: x-y" for a descending range `x-y` of the pattern. |
| Regexes.UnterminatedClass | src/regex.rs:147-184 | With no `]` after the cursor the class fails, and with no `-` either the message is "Unterminated character class". |
| Regexes.DotClass | src/regex.rs:86-95 | `.` is the ASCII characters except newline. |
| Regexes.InsertRange | src/regex.rs:163-167 | The loop over the codes adds exactly the range to the class. |
| Regexes.RegexParser.constructor | src/regex.rs:16-19 | The parser starts at position 0 of the pattern's characters. |
| Regexes.RegexParser.ParseOperators | src/regex.rs:115-135 | Returns the NFA of `Postfix` and advances the cursor to its end. |
| Regexes.RegexParser.ClassMembers | src/regex.rs:147-184 | The member loop returns `ClassItems`' members or error and leaves the cursor past the `]`. |
| Regexes.RegexParser.ParseCharClass | src/regex.rs:137-204 | Returns the NFA of `ClassOf` (negated over ASCII after `^`), or its error. |
| Regexes.RegexParser.ParseRegex | src/regex.rs:24-113 | Returns the NFA of `ParseSeq` and leaves the cursor where it stopped, or returns its error. |
| Regexes.RegexParser.ParseGroup | src/regex.rs:30-47 | A group parses its inside, demands the `)`, then applies the operators. |
| Regexes.RegexParser.ParseEscape | src/regex.rs:64-80 | An escape takes the next character literally, or fails at the end of the pattern. |
| Regexes.RegexParser.ParseCharacter | src/regex.rs:81-108 | A plain character, or `.`, becomes its fragment; `(`, `)`, `[`, `]`, `\|` and `\` are refused. |
| Regexes.RegexParser.Parse | src/regex.rs:11-22 | `parse` returns `empty()` for the empty pattern, else the NFA of `ParseOf`, or its error. |
| Regexes.StrayParenIgnored | src/regex.rs:29 | As written, an unmatched `)` ends parsing with success, and the rest of the pattern is ignored. |
| Regexes.StrayParenExample | src/regex.rs:29 | `a)b` parses as `a`. |
| Regexes.RegexParser.ParseAll | src/regex.rs:11-22 | The corrected entry point returns the NFA of `ParseAllOf`, which rejects input left unread. |
| Regexes.StrayParenRejected | src/regex.rs:29 | Under the correction, a stray `)` after a valid pattern is an error. |
| Regexes.ParseAllAgrees | src/regex.rs:11-22 | The correction agrees with `parse` whenever it succeeds; they differ only where `parse` stopped at a `)`. |
| Dfas.Move | src/dfa.rs:79-94 | The loop collects exactly the targets of the `Char` and matching `CharClass` edges out of the subset. |
| Dfas.AcceptPriority | src/dfa.rs:109-125 | A new DFA state accepts with action `a` exactly when its smallest final NFA state carries `a`. |
| Dfas.LowestFinal | src/dfa.rs:109-118 | The loop finds the final NFA state with the smallest id, if any. |
| Dfas.AddSubset | src/dfa.rs:103-129 | A new subset gets the next id and is queued; it is final with an action exactly when `AcceptOf` gives one. |
| Dfas.FromNfa | src/dfa.rs:58-139 | The result is the subset automaton of the NFA: DFA state i stands for a distinct non-empty ε-closed subset, 0 is the closure of the start, and each transition is the closed move on an alphabet character; every subset after the first is the closed move of an earlier one on an alphabet character (`Discovered`). |
| Dfas.SubsetReached | src/dfa.rs:75-128 | Every subset the construction numbers is the ε-closed run of the NFA on some word over the alphabet. |
| Dfas.StatesReachable | src/dfa.rs:75-128 | Every DFA state is reached from the start by some word: the construction creates no unreachable state. |
| Dfas.RunTracksSubsets | src/dfa.rs:58-139 | Reading a word over the alphabet reaches the DFA state whose subset is the NFA's ε-closed run; the DFA gets stuck exactly when that run is empty. |
| Dfas.Minimize | src/dfa.rs:197-202 | `minimize` returns the automaton unchanged. |
| Dfas.LongestUpTo | src/dfa.rs:159-181 | Gives the length of the longest accepted non-empty prefix no longer than k, or 0. |
| Dfas.LongestPastStuck | src/dfa.rs:166-179 | Once the scanner is stuck no longer prefix is accepted, so stopping early is sound. |
| Dfas.ScanNextToken | src/dfa.rs:159-195 | Returns the longest accepted prefix, its state's action (or "UNKNOWN"), and the rest of the input; when nothing is accepted it returns an empty token and action and the whole input. |
| Dfas.Simulate | src/dfa.rs:142-157 | Returns `Tokens`: repeated longest matches until the input is exhausted or no prefix matches. |
| Dfas.TokensCover | src/dfa.rs:142-157 | Every emitted token is accepted, and the tokens joined together form a prefix of the input. |
| Dfas.TokensStop | src/dfa.rs:146-150 | The tokens stop either at the end of the input or at a position from which no non-empty prefix of the rest is accepted. |
| Tables.EntryOf | src/rule.rs:28-36 | A trimmed non-blank line with a space is split at the first space into trimmed pattern and action, and keeps its line number. |
| Tables.RulesFor | src/rule.rs:47-56 | The queued patterns each get the action, in queue order. |
| Tables.EmitPending | src/rule.rs:47-56 | The inner loop appends one rule per queued pattern. |
| Tables.NewTable | src/rule.rs:18-73 | `Table::new` returns `TableOf`: the fed rules, or the error naming the first queued line. |
| Tables.FeedSettles | src/rule.rs:25-65 | After the loop, every entry up to the last real action has a rule with the next real action at or after it, and the queue is the `\|` entries after it. |
| Tables.TableContents | src/rule.rs:18-73 | The table succeeds exactly when the entries end with a real action. Rule k is then entry k's pattern with its next real action; otherwise the error cites the first unmatched `\|` line. |
| Macros.MacroRef | src/file.rs:270 | A reference is the name between braces. |
| Macros.Listing | src/file.rs:269 | The definitions are iterated once each, in key order, with their values. |
| Macros.CircularError | src/file.rs:279-282 | The circular-reference message, which ends with the pattern that could not be expanded. |
| Macros.ExpandPass | src/file.rs:269-275 | One pass replaces each referenced name in turn and reports whether anything changed. |
| Macros.ExpandPasses | src/file.rs:260-276 | The loop reaches 100 iterations exactly when `Expand` gives nothing; otherwise it returns `Expand`'s result. |
| Macros.ExpandMacros | src/file.rs:256-286 | `expand_macros` returns `ExpandOf`: the expansion, or the circular-reference error when 100 iterations are reached, even if the last pass changed nothing. |
| Macros.PassUnchanged | src/file.rs:269-275 | A pass changes nothing exactly when no reference occurs, and then it leaves the text as it is. |
| Macros.NoReferences | src/file.rs:256-286 | A pattern without references expands to itself. |
| Macros.ExpandOfResolves | src/file.rs:256-286 | A successful expansion leaves no reference to any definition. |
| Macros.SelfReference | src/file.rs:278-283 | When the only definition refers to itself and the pattern uses it, the expansion fails with the circular-reference error. |
| Macros.ExpandExample | src/file.rs:256-286 | `{D}+` with `D = [0-9]` expands to `[0-9]+`. |
| LexFiles.BlockEndFirst | src/file.rs:75-85 | A `%{` block is skipped through the first `%}` line, or to the end of the file. |
| LexFiles.SkipCodeBlock | src/file.rs:77-85 | The skip loop stops where `BlockEnd` says. |
| LexFiles.ScanBlockLine | src/file.rs:110-132 | The brace loop of a block line gives `BlockScan`'s depth and closing flag. |
| LexFiles.BlockScanCloses | src/file.rs:110-132 | A line that closes the block has a prefix ending in `}` where the depth reaches 0. |
| LexFiles.BlockScanOpen | src/file.rs:110-132 | A line that does not close the block never brings the depth to 0 and adds its net brace count. |
| LexFiles.OpeningBraces | src/file.rs:156-163 | The opening count is 1 plus the net braces after the first character. |
| LexFiles.CollectCode | src/file.rs:222-231 | The code section is every following line, each followed by a line feed. |
| LexFiles.CodeOfAppend | src/file.rs:224-228 | Appending a line to the file appends it and a line feed to the copied code. |
| LexFiles.ReadDefinition | src/file.rs:73-100 | The definitions step: skip a `%{` block, bind a name to its expanded value, ignore a line without a space, or report the expansion error. |
| LexFiles.AddBlockLine | src/file.rs:104-134 | A block line is accumulated; when the braces balance, the queued patterns get the block and the queue empties. |
| LexFiles.AddRule | src/file.rs:143-211 | A rule line queues on `\|`, opens a block on an unbalanced `{`, and otherwise gives the action to the queue or to its own pattern. |
| LexFiles.ReadRule | src/file.rs:102-220 | The rules step: block line, split rule line with its pattern expanded, or the malformed-line error. |
| LexFiles.ReadLine | src/file.rs:44-233 | One iteration of the line loop is `Step`. |
| LexFiles.NewLexFile | src/file.rs:28-254 | `LexFile::new` returns `FileOf`: the loop's definitions, rules and code, or the first error. |
| LexFiles.EnterRules | src/file.rs:48-63 | The first `%%` switches to the rules section. |
| LexFiles.SeparatorExample | src/file.rs:52-57 | A third `%%` is refused with its line number. |
| LexFiles.SkippedLine | src/file.rs:65-70 | Blank and comment lines leave the state unchanged. |
| LexFiles.CodeSectionCopies | src/file.rs:222-231 | At the first line of the code section that is neither blank, a comment nor `%%`, that line is dropped, every later line is appended to the code with a line feed after it, and the loop ends. |
| LexFiles.MalformedLine | src/file.rs:212-218 | A rule line without whitespace fails with the malformed-rule error on its line number. |
| LexFiles.QueueLine | src/file.rs:143-149 | A `pattern \|` line queues the pattern with its line number. |
| LexFiles.PlainActionLine | src/file.rs:195-211 | A plain action goes to every queued pattern and then to the line's own pattern, and the queue empties. |
| LexFiles.BraceActionLine | src/file.rs:176-193 | A balanced one-line `{…}` action goes to the queued patterns only, or to the line's own pattern when nothing is queued. |
| LexFiles.OpenBlockLine | src/file.rs:150-175 | An unbalanced `{` opens a block, queuing the line's pattern only when nothing is queued yet. |
| LexFiles.InBlockLine | src/file.rs:104-134 | Inside a block the trimmed line is added to the block. |
| LexFiles.DefinitionLine | src/file.rs:86-96 | `name value` binds the name to the expanded value, or fails with the expansion error. |
| LexFiles.RunExtends | src/file.rs:44-233 | The loop only ever appends rules. |
| LexFiles.RunErrors | src/file.rs:44-233 | Every error raised inside the loop is a separator, malformed-rule or circular-reference message. |
| LexFiles.OpenBlockReported | src/file.rs:236-247 | A block still open at the end always has a queued pattern, so the pattern-without-action error is reported first. |
| LexFiles.LoopErrorNotUnclosed | src/file.rs:245-247 | None of the three loop messages is the unclosed-action-block message. |
| LexFiles.UnclosedNeverReported | src/file.rs:245-247 | The unclosed-action-block error is never returned. |
| CodeGen.Byte | src/code.rs:83 | `as u8` keeps the low byte of the character code, and is the code itself below 256. |
| CodeGen.SortedIds | src/code.rs:74 | A `BTreeSet` of ids is listed in strictly ascending order, with exactly its members. |
| CodeGen.CharCasesEntries | src/code.rs:79-92 | The inner cases of a state are its `Char` edges in ascending character order, each with its target. |
| CodeGen.GenerateHeader | src/code.rs:31-59 | The header is each definitions-code line followed by a line feed, then the includes and globals. |
| CodeGen.CharCaseLines | src/code.rs:79-92 | The edge loop writes `CharCasesText` of the cases. |
| CodeGen.StateCase | src/code.rs:75-96 | One state's case of `transition()` is its label, its inner switch, and the `-1` default. |
| CodeGen.TransitionCases | src/code.rs:74-97 | The state loop writes one case per state in ascending order. |
| CodeGen.AcceptCases | src/code.rs:109-112 | The final-state loop writes one `return 1` case per final state in ascending order. |
| CodeGen.ActionCases | src/code.rs:124-128 | The action loop writes one case per state with an action, in ascending order. |
| CodeGen.GenerateTransitionTable | src/code.rs:61-138 | The table text is the three switches with their fixed prologues and epilogues. |
| CodeGen.GenerateCode | src/code.rs:13-29 | The output is the header, the table, the fixed token logic, then the user code. |
| CodeGen.TransitionSwitch | src/code.rs:74-97 | For every byte, the generated inner switch of a state answers the DFA's `Char` transition on it, or `-1` when there is none. |
| CodeGen.CharDescriptionInjective | src/code.rs:280-289 | Different characters get different comments. |
| CodeGen.AcceptReadBack | src/code.rs:109-112 | The accepting cases read back as the listed state numbers, in order. |
| CodeGen.AcceptingCases | src/code.rs:105-118 | `is_accepting()` has exactly one case per final state, in ascending order. |

## Left out

- File reading (`fs::read_to_string`, `split('\n')`) is not modelled. `Table::new` and `LexFile::new` take the path and the lines as parameters. The read failure of `LexFile::new` and the panic of `Table::new` on an unreadable file are outside the model.
- The `eprintln!` of `Table::new` for a line without a space, and the `println!` of `generate_header`, are left out. Neither affects a result.
- The `Display` impls of `NFA` and `DFA` (debug output) are left out. Only `Symbol`'s display is modelled.
- `NFA::new` is left out. It is the empty constructor, and `Nfas.Default` stands for it.
- `CodeGenerator::new` is left out. The generator's file and DFA are parameters of each `CodeGen` function.
- `definitions_code` is not a field of `LexFile` in the crate, so `generate_header` cannot compile as written. The model takes these code lines as a parameter of `GenerateHeader` and `GenerateCode`.
- `generate_token_logic` returns a fixed text. It is the constant `CodeGen.TokenLogic`, and its C semantics are not modelled.
- Characters are Dafny `char`s, which have no surrogate codes, just as Rust `char::from_u32` rejects them. `CodeGen.Byte` models `as u8` as the code modulo 256.
- CodeGen.TransitionSwitch: requires every edge character of the state to be below 256. Above that, `as u8` truncation makes two characters share a case label, and the first one wins.
- `scan_next_token` slices the rest of the input by a character count used as a byte offset. The model slices by characters. The two differ, or the Rust code panics, for non-ASCII input before the token end.
- The regular-expression tree `Regex` consumed by `From<Regex>` is not defined in any file of the crate. `Patterns.Regex` has exactly the variants the conversion matches on. Of them, only the ones `parse` builds are reached from the parser.
- `parse_operators` returns a `Result` but never fails. `ParseOperators` returns the NFA directly.
- `Thompson.Bounded`: its contract gives the construction, and its state counts are proved for min > 0 with no maximum and for min < max. The other size cases are not stated.
- Text.IsWhitespace: recognises the six ASCII whitespace characters only. Rust's `char::is_whitespace` and `str::trim` also treat Unicode spaces (U+0085, U+00A0, U+2000–U+200A and others) as whitespace, so `Text.Trim` and `Text.IndexOfWhitespace` differ from the crate on such characters.
- `Dfas.Minimize` is the identity because `minimize` is unimplemented in the source. No minimality is claimed.
- `Dfas.FromNfa`: the ghost result lists the NFA subset behind each DFA state. Termination of the worklist is proved over the finite set of subsets of the NFA's states.
- `Macros.ExpandOf` is built on `Expand`, whose `iteration` argument is the loop counter bounded by 100. It is not a fuel bound: the source itself stops after 100 passes.
- The regex parser's recursion on `(` and `|` uses the Rust call stack. Stack overflow on deeply nested patterns is not modelled.

## Findings

| source | as written | input that shows it | evidently intended | confidence | as-written member | corrected member |
|---|---|---|---|---|---|---|
| src/regex.rs:29 | `parse_regex` returns on `)` at any depth, and `parse` never checks that the whole pattern was read, so a stray `)` ends the pattern silently | `a)b` parses as `a` | an unmatched `)` is an error ("Unmatched parenthesis"), as an unmatched `(` is | not executed | Regexes.StrayParenIgnored | Regexes.StrayParenRejected |
