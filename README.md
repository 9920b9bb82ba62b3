# CL0 front end, node rule engine and control-plane state in Dafny

This project models the core of CL0. CL0 is a small language of reactive
rules that run on distributed nodes. The model has three parts.

- The front end (`crates/cl0_parser`):
  - the token type and how each token is displayed;
  - the character lexer, with its priority order, the `.`/end-of-rule
    lookahead, keywords, `%` comments, eight-bit numbers and error recovery;
  - the recursive-descent grammar of actions, conditions, rules, compounds
    and programs;
  - the lex, strip-spans, parse pipeline and its token-to-character span
    arithmetic.

  A token printer is added next to the grammar. It lets the parser be
  proved against its inverse: every well-formed tree, printed, parses back
  to itself.
- The node (`crates/cl0_node`):
  - the three-valued `ActivationStatus` and the `Rule`/`RuleWithArgs`
    conversions;
  - the status aggregation and the conjunction of task results;
  - the alias namespace tree;
  - the pre-order AST visitor;
  - the node itself, a class whose variable store, alias namespaces and
    handler registry its operations update in place.

  Every `Node` method is proved to compute its specification function in
  `NodeSpec`: `ProcessCondition` computes `EvalCondition`,
  `GetAtomicCondition` computes `GetAtomic`, `CollectStatuses` computes
  `Statuses`, `GetRuleStatus` computes `RuleStatus`, `UpdateVar` computes
  `UpdateVarSpec`, `StoreAtomicCondition` computes `StoreSpec`,
  `ProcessRules` computes `RulesLoop`, `ProcessRule` computes `RuleSpec`,
  `ProcessAction` computes `ActionSpec`, `Produce` computes `ProduceSpec`,
  `RunAll` computes `ActionsLoop`, and `NewRules` computes the corrected
  `NewRules` (the route as written is `NewRulesAsWritten`). The properties of those functions (short-circuit
  evaluation, "an unset variable is an error", fact defaults, the
  initialisation order, compound storage and read-back) are lemmas in
  `NodeFacts`.
- The in-memory control-plane and server state:
  - the control plane's node registry and pool table (`ControlPlane.Registry`);
  - the cluster topology, its scope sessions and the REPL transcript
    (`Server.Cluster`);
  - the presence hub (`Presence.Hub`).

  Each is a class over maps and sequences, proved against a function on
  its state. Each broadcast channel is an event-log sequence. Ids and clock
  readings are parameters.

Where the files of the repository disagree, the model follows the code
that runs:

- `crates/cl0_parser/src/ast.rs` is older than the code that uses it. The
  AST here has the shape that node.rs and the tests use: owned strings,
  `CaseRule`/`FactRule`, and `AtomicCondition::SubCompound`.
- `Production`/`Consumption` carry an `AtomicCondition`, as node.rs:265,315
  reads them. The parser wraps the descriptor it reads in `Primitive`.
  parser.rs:109,120 builds a `PrimitiveCondition` there instead.
- The `EndRule`, `At` and `Number` tokens that lexer.rs:30,45,62 emits are
  added to the token type.
- A sub-compound namespace is put in front of the path when storing
  (node.rs:657-664) and getting (node.rs:775-782), but at the end when
  looking up alias rules (node.rs:535-539). Each function follows its own
  code.
- A sub-compound is stored as `False` whatever value is passed
  (node.rs:669), as written.

## Model

| member | source | states |
|---|---|---|
| Tokens.Display | crates/cl0_parser/src/token.rs:68-95 | every token displays as non-empty text |
| Tokens.KeywordDisplayRoundTrip | crates/cl0_parser/src/token.rs:74-92 | the lexer's keyword table maps the displayed text of every keyword token back to that token |
| Tokens.DescriptorDisplayQuoted | crates/cl0_parser/src/token.rs:91 | a descriptor displays as its name wrapped in double quotes, two characters longer |
| Lexer.LineEnd | crates/cl0_parser/src/lexer.rs:70-72 | a comment runs to the first newline or the end of input, and contains no newline |
| Lexer.SkipTrivia | crates/cl0_parser/src/lexer.rs:70-77 | padding skips whitespace and comments and stops at a character that starts neither |
| Lexer.IdentEnd | crates/cl0_parser/src/lexer.rs:49 | an identifier is the longest run of identifier characters |
| Lexer.DigitsEnd | crates/cl0_parser/src/lexer.rs:60 | a number literal is the longest run of decimal digits |
| Lexer.NumberToken | crates/cl0_parser/src/lexer.rs:60-65 | a digit run that is read gives a `Number` token and consumes at least one character |
| Lexer.TryToken | crates/cl0_parser/src/lexer.rs:19-67 | a `.` is `Dot` exactly when a letter, digit or `{` follows it, and `EndRule` otherwise; every token read consumes input |
| Lexer.Step | crates/cl0_parser/src/lexer.rs:74-77 | one padded token: its span lies inside the text it consumed, after the padding |
| Lexer.Recover | crates/cl0_parser/src/lexer.rs:78-79 | after a failed step, lexing retries one character further on and always makes progress |
| Lexer.LexFrom | crates/cl0_parser/src/lexer.rs:74-81 | every `Dot` in the result is followed by a letter, digit or `{` in the text |
| LexerFacts.WordAt | crates/cl0_parser/src/lexer.rs:49-58 | an identifier followed by a separator reads as its keyword token, or as a descriptor when it is no keyword |
| LexerFacts.KeywordSpelling | crates/cl0_parser/src/lexer.rs:49-58 | each keyword token is spelt as an identifier that the keyword table maps back to it |
| LexerFacts.NumberAt | crates/cl0_parser/src/lexer.rs:60-65 | the decimal spelling of any eight-bit value reads as that `Number` |
| LexerFacts.NumberOutOfRange | crates/cl0_parser/src/lexer.rs:60-65 | a literal of 256 or more is a lexing error at its first character |
| LexerFacts.PunctuationAt | crates/cl0_parser/src/lexer.rs:19-46 | each operator and symbol reads as itself; `=>`, `->` and `-o` read as one token, not as two symbols |
| LexerFacts.TokenAt | crates/cl0_parser/src/lexer.rs:67 | every spellable token followed by a separator is read back as itself |
| LexerFacts.SkipsUnlexable | crates/cl0_parser/src/lexer.rs:78-79 | a character that starts nothing is reported and skipped, and lexing resumes at the next character |
| LexerFacts.LexRendered | crates/cl0_parser/src/lexer.rs:74-81 | lexing space-separated token text gives those tokens in order, each with the span of its own text, and no error |
| LexerFacts.LexDisplay | crates/cl0_parser/src/token.rs:68-95 | every token but a descriptor and `Dot` displays as the text the lexer reads it from, and that text alone lexes to exactly that token over the whole text; so `{{` and `}}` display the single characters `{` and `}`, and a final `.` reads as an end of rule |
| LexerFacts.TrailingCommentIgnored | crates/cl0_parser/src/lexer.rs:70-76 | a trailing `%` comment, whatever symbols it holds, adds no token and no error |
| LexerFacts.DecimalDigits | crates/cl0_parser/src/lexer.rs:60 | the decimal spelling of a value is all digits, has no leading zero, and reads back as that value |
| Grammar.Rules | crates/cl0_parser/src/lib.rs:107-112 | the rules of spanned rules are those rules, in order |
| Grammar.ParsePrimitiveEvent | crates/cl0_parser/src/parser.rs:90-135 | an event is `#`, `+` or `-` followed by one descriptor, two tokens in all |
| Grammar.ParsePrimitiveCondition | crates/cl0_parser/src/parser.rs:175-195 | a primitive condition is one descriptor token, read as the variable of that name |
| Grammar.ParseItem | crates/cl0_parser/src/parser.rs:13-80 | an item of an action level starts with an event token and consumes input |
| Grammar.GroupTail | crates/cl0_parser/src/parser.rs:27-29 | the tail of a separated list always succeeds and only adds items |
| Grammar.ParseGroup | crates/cl0_parser/src/parser.rs:25-34 | a group of a level starts with an event token and consumes input |
| Grammar.ParseAction | crates/cl0_parser/src/parser.rs:64-80 | an action starts with an event token and consumes input |
| Grammar.CountNots | crates/cl0_parser/src/parser.rs:264-266 | counts exactly the run of `not` tokens at a position |
| Grammar.ParseRules | crates/cl0_parser/src/parser.rs:229 | the repeated rule parser always succeeds and never moves backwards |
| Grammar.ParseRule | crates/cl0_parser/src/parser.rs:423-428 | a rule ends with the terminator and starts with a token a rule can start with |
| Grammar.ParseGuard | crates/cl0_parser/src/parser.rs:334-338 | the optional `: condition` consumes nothing when it is absent |
| Grammar.ParsePremise | crates/cl0_parser/src/parser.rs:372-374 | an absent premise consumes nothing; a present one starts with a condition token |
| Grammar.ParseEca | crates/cl0_parser/src/parser.rs:333-352 | an ECA rule starts with an event token and ends with the terminator |
| Grammar.ParseCa | crates/cl0_parser/src/parser.rs:355-366 | a CA rule starts with `:` and ends with the terminator |
| Grammar.ParseCc | crates/cl0_parser/src/parser.rs:372-387 | a CC rule starts with a premise or `->` and ends with the terminator |
| Grammar.ParseCt | crates/cl0_parser/src/parser.rs:390-405 | a CT rule starts with a premise or `-o` and ends with the terminator |
| Grammar.ParseCaseRule | crates/cl0_parser/src/parser.rs:410-414 | a case rule starts with `=>` and ends with the terminator |
| Grammar.ParseFact | crates/cl0_parser/src/parser.rs:417-421 | a fact starts with an atomic condition and ends with the terminator |
| Grammar.ParseCondition | crates/cl0_parser/src/parser.rs:293-307 | a condition starts and ends with tokens a condition can start and end with |
| Grammar.DisjunctionTail | crates/cl0_parser/src/parser.rs:294 | each further disjunct read ends with a condition token |
| Grammar.ParseConjunction | crates/cl0_parser/src/parser.rs:276-291 | a conjunction starts and ends with condition tokens |
| Grammar.ConjunctionTail | crates/cl0_parser/src/parser.rs:278 | each further conjunct read ends with a condition token |
| Grammar.ParseNegation | crates/cl0_parser/src/parser.rs:264-274 | a negation starts and ends with condition tokens |
| Grammar.ParsePrimary | crates/cl0_parser/src/parser.rs:256-261 | a primary is an atomic condition or a parenthesised condition, and never starts with `not` |
| Grammar.ParseAtomic | crates/cl0_parser/src/parser.rs:325-328 | an atomic condition starts with a descriptor or `{` |
| Grammar.ParseCompound | crates/cl0_parser/src/parser.rs:227-245 | a compound starts with `{` and ends with `}` or its alias |
| GrammarFacts.ActionRoundTrip | crates/cl0_parser/src/parser.rs:13-80 | every well-formed action, printed, parses back to itself |
| GrammarFacts.GroupTrailingSeparator | crates/cl0_parser/src/parser.rs:29 | a trailing separator after a group is consumed and changes nothing |
| ParserFacts.ConditionRoundTrip | crates/cl0_parser/src/parser.rs:248-307 | every well-formed condition, printed, parses back to itself |
| ParserFacts.AtomicRoundTrip | crates/cl0_parser/src/parser.rs:325-328 | every well-formed atomic condition, printed, parses back to itself |
| ParserFacts.CompoundRoundTrip | crates/cl0_parser/src/parser.rs:227-245 | every well-formed compound, printed, parses back to itself |
| ParserFacts.RuleRoundTrip | crates/cl0_parser/src/parser.rs:423-428 | every well-formed rule of the four forms, printed, parses back to itself |
| ParserFacts.ProgramRoundTrip | crates/cl0_parser/src/parser.rs:440-451 | a printed program parses back to its rules, in order |
| ParserFacts.EmptyInput | crates/cl0_parser/tests/parser/action.rs:46-48 | empty input is rejected by every parser except the program parser, which reads no rules |
| ParserFacts.JuxtaposedConditions | crates/cl0_parser/tests/parser/condition.rs:46-49 | a condition directly followed by the start of another condition is rejected |
| ParserFacts.JuxtaposedActions | crates/cl0_parser/tests/parser/action.rs:190-193 | an action directly followed by another event is rejected |
| ParserFacts.SeparatorAtEdgeRejected | crates/cl0_parser/tests/parser/condition.rs:127-145 | a condition that starts or ends with `and`, `,`, `or` or `;` is rejected |
| ParserFacts.NotPrefix | crates/cl0_parser/src/parser.rs:264-274 | `k` leading `not`s wrap the primary in exactly `k` negations |
| ParserFacts.NotBindsTighterThanAnd | crates/cl0_parser/tests/parser/condition.rs:66-74 | "not a and b" is the conjunction of `not a` and `b` |
| ParserFacts.AndBindsTighterThanOr | crates/cl0_parser/tests/parser/condition.rs:198-217 | "a and b or c" and "a or b and c" group `and` before `or` |
| ParserFacts.ParenthesesKept | crates/cl0_parser/tests/parser/condition.rs:240-250 | "not (a)" keeps the parentheses as their own node |
| ParserFacts.ActionPrecedence | crates/cl0_parser/tests/parser/action.rs:161-188 | in "#a par #b alt #c par #d seq …", `par` binds tighter than `alt`, and `alt` tighter than `seq` |
| ParserFacts.SingleEventCollapses | crates/cl0_parser/tests/parser/action.rs:34-44 | a single event is that event, not a one-element list |
| ParserFacts.ActionRespelled | crates/cl0_parser/src/parser.rs:27 | writing `par` for `,` or `seq` for `;` anywhere does not change how an action parses |
| ParserFacts.SymbolSeparators | crates/cl0_parser/src/parser.rs:278 | outside compounds, writing `,` for `and` or `;` for `or` does not change how a condition parses |
| Pipeline.StripSpans | crates/cl0_parser/src/lib.rs:44-48 | the parser gets exactly the lexed tokens without their spans, in order |
| Pipeline.ErrorCharSpan | crates/cl0_parser/src/lib.rs:55-63 | the start is token `tok_start`'s start, or 0 out of range; the end is the start when `tok_end` is 0, else token `tok_end-1`'s end |
| Pipeline.ErrorSpanCovers | crates/cl0_parser/src/lib.rs:55-63 | with ordered spans, the character span covers every token of the error's range |
| Pipeline.LexSpansOrdered | crates/cl0_parser/src/lexer.rs:75-77 | every lexed token spans characters of the text, in order and without overlap |
| Pipeline.LexAndParseSpan | crates/cl0_parser/src/lib.rs:19-105 | a lexing error exits with status 1; the rules read cover the token sequence in order without gaps |
| Pipeline.LexAndParse | crates/cl0_parser/src/lib.rs:107-112 | finishes exactly when `lex_and_parse_span` does, with its rules in order and without their spans |
| Pipeline.LexAndParseCompound | crates/cl0_parser/src/lib.rs:121-206 | a lexing error exits with status 1; a finished run lexed without error, starts with `{`, and its compound is the one the compound parser reads from the whole token sequence |
| Pipeline.LexAndParseSafe | crates/cl0_parser/src/lib.rs:209-236 | every failure is the one "failed to parse" error value |
| Pipeline.SafeAgrees | crates/cl0_parser/src/lib.rs:216-236 | the safe pipeline fails exactly when the exiting one exits, and otherwise returns the same rules |
| Pipeline.RulesTiled | crates/cl0_parser/src/parser.rs:440-451 | the rules read follow each other without gaps, each over a non-empty token range |
| Pipeline.LexLastNotDot | crates/cl0_parser/src/lexer.rs:26-31 | a lexing without errors never ends with `Dot` |
| Pipeline.AsWrittenAcceptsNoRules | crates/cl0_parser/src/parser.rs:341 | as written, a lexed input with no lexing error parses to no rules or exits |
| Pipeline.FactTextAsWritten | crates/cl0_parser/src/parser.rs:417-421 | as written, "c." lexes to `c` and `EndRule` and the pipeline exits with status 1 |
| Pipeline.TextRoundTrip | crates/cl0_parser/src/lib.rs:107-112 | with `EndRule` as the terminator, the text of every well-formed program lexes and parses back to its rules, on both pipelines |
| Pipeline.CompoundTextRoundTrip | crates/cl0_parser/src/lib.rs:121-206 | with `EndRule`, the text of every well-formed compound reads back as it |
| Pipeline.FactTextCorrected | crates/cl0_parser/tests/parser/rule.rs:170-184 | with `EndRule`, "c." reads as the one fact rule `c` |
| NodeTypes.AsOptionBool | crates/cl0_node/src/types.rs:90-96 | none exactly for `Conflict`; otherwise the boolean the status stands for |
| NodeTypes.AsOptionBoolFromBool | crates/cl0_node/src/types.rs:90-96 | `as_option_bool` inverts the boolean-to-status map |
| NodeTypes.ToBool | crates/cl0_node/src/types.rs:99-105 | fails exactly for `Conflict`, and otherwise agrees with `as_option_bool` |
| NodeTypes.Display | crates/cl0_node/src/types.rs:108-116 | a status displays as "Unknown" exactly when it is `Conflict` |
| NodeTypes.DisplayInjective | crates/cl0_node/src/types.rs:108-116 | different statuses display differently |
| NodeTypes.ToRule | crates/cl0_node/src/types.rs:48-57 | a rule with arguments converts to a rule of the same kind |
| NodeTypes.WithArgs | crates/cl0_node/src/types.rs:58-74 | a fact gets no value, a reactive rule gets `True` and no alias, and converting back gives the rule |
| NodeTypes.ArgsRoundTrip | crates/cl0_node/src/types.rs:48-74 | converting back and forth returns a rule with arguments exactly when it carries the default arguments |
| NodeTypes.ToRuleDropsArgs | crates/cl0_node/src/types.rs:48-57 | the value and alias are discarded by the conversion to `Rule` |
| NodeUtils.OverallStatusFromSet | crates/cl0_node/src/utils.rs:15-32 | an error exactly for a set holding `Conflict` or an empty set; otherwise a member, `True` exactly when all are `True` |
| NodeUtils.OverallIsConjunction | crates/cl0_node/src/utils.rs:15-32 | the overall status is the conjunction of the booleans of the statuses |
| NodeUtils.ConjunctionOf | crates/cl0_node/src/utils.rs:36-50 | the first failed task's error if any, otherwise the AND of all results; an empty list gives true |
| NodeUtils.CollectConjunction | crates/cl0_node/src/utils.rs:36-50 | the loop computes the conjunction of the task results |
| NodeUtils.NewNamespace | crates/cl0_node/src/utils.rs:60-67 | a new namespace has no rules and no sub-namespaces |
| NodeUtils.GetRules | crates/cl0_node/src/utils.rs:69-84 | the empty path gives this namespace's rules; otherwise descend by the first step, or fail naming it |
| NodeUtils.UnionRules | crates/cl0_node/src/utils.rs:94-109 | the old rules come first, then new ones; its elements are the old and the new; no duplicates are added |
| NodeUtils.Combine | crates/cl0_node/src/utils.rs:96-108 | the in-place union loop computes the union |
| NodeUtils.Created | crates/cl0_node/src/utils.rs:88-123 | creating under a path adds the path's first step and leaves this level's rules alone |
| NodeUtils.Previous | crates/cl0_node/src/utils.rs:110-114 | the previous rules when the target held some, none otherwise |
| NodeUtils.CreateRules | crates/cl0_node/src/utils.rs:88-123 | the method gives the new tree and the previous rules |
| NodeUtils.CreateThenGet | crates/cl0_node/src/utils.rs:117-123 | after a creation the path reads back the replaced or united rules |
| NodeUtils.CreateOverrideThenGet | crates/cl0_node/src/utils.rs:117-123 | with override, the path reads back exactly the rules stored |
| NodeUtils.CreateKeepsOthers | crates/cl0_node/src/utils.rs:88-123 | every other path keeps its rules |
| NodeUtils.GetParts | crates/cl0_node/src/utils.rs:129-139 | a non-empty path splits into its head and tail, and is returned whole |
| Visitor.VisitCondition | crates/cl0_node/src/visitor.rs:44-62 | the condition itself is visited first |
| Visitor.VisitPrimitive | crates/cl0_node/src/visitor.rs:72-75 | a primitive condition visits only itself |
| Visitor.VisitAtomic | crates/cl0_node/src/visitor.rs:79-91 | the atomic condition is visited first |
| Visitor.VisitCompound | crates/cl0_node/src/visitor.rs:231-237 | the compound is visited first |
| Visitor.VisitActionList | crates/cl0_node/src/visitor.rs:98-116 | the list is visited first |
| Visitor.VisitEvent | crates/cl0_node/src/visitor.rs:122-135 | the event is visited first; a trigger visits only itself |
| Visitor.VisitAction | crates/cl0_node/src/visitor.rs:139-147 | the action is visited first |
| Visitor.VisitOptional | crates/cl0_node/src/visitor.rs:157-189 | an absent guard or premise is not visited at all |
| Visitor.VisitReactive | crates/cl0_node/src/visitor.rs:154-167 | the reactive rule is visited first |
| Visitor.VisitDeclarative | crates/cl0_node/src/visitor.rs:174-189 | the declarative rule is visited first |
| Visitor.VisitRule | crates/cl0_node/src/visitor.rs:195-212 | the rule is visited first |
| Visitor.RuleAtomics | crates/cl0_node/src/visitor.rs:139-237 | the atomic conditions a rule's traversal meets are exactly those that occur in it |
| Visitor.ConditionAtomics | crates/cl0_node/src/visitor.rs:44-91 | the atomic conditions a condition's traversal meets are exactly those that occur in it |
| Visitor.CollectAtomics | crates/cl0_node/src/node.rs:101-109 | the callback collects exactly the atomic conditions visited |
| Visitor.AtomicsOfProgram | crates/cl0_node/src/node.rs:101-109 | the conditions collected from the rules are exactly the atomic conditions in them |
| NodeSpec.FindStatus | crates/cl0_node/src/node.rs:791-835 | the value of the first held rule with the same rule and alias; not found exactly when there is none |
| NodeSpec.Matching | crates/cl0_node/src/node.rs:738-743 | the compound's rules that the namespace also holds |
| NodeSpec.CompoundArgs | crates/cl0_node/src/node.rs:620-636 | fails exactly for a declarative rule; facts carry the value, reactive rules the value and the path, case rules are dropped |
| NodeSpec.CaseRules | crates/cl0_node/src/node.rs:137-146 | exactly the case rules of the input |
| NodeSpec.OtherRules | crates/cl0_node/src/node.rs:116-136 | exactly the non-case rules, each with the default arguments |
| NodeEngine.Node.constructor | crates/cl0_node/src/node.rs:44-48 | a node starts with empty maps |
| NodeEngine.Node.NewWithRules | crates/cl0_node/src/node.rs:101-163 | every atomic condition stored as `False`, then the non-case rules, then the case rules only if that succeeded |
| NodeEngine.Node.NewRules | crates/cl0_node/src/node.rs:55-70 | the corrected route of the `new_rules` finding: each rule processed in order, the first error stopping it, and each rule's result recorded, which the source never does; the route as written is `NodeSpec.NewRulesAsWritten` |
| NodeEngine.Node.ProcessCondition | crates/cl0_node/src/node.rs:174-223 | computes the evaluation function, with the conjunction and disjunction loops proved against it |
| NodeEngine.Node.GetAtomicCondition | crates/cl0_node/src/node.rs:680-788 | computes the status of an atomic condition as its function gives it |
| NodeEngine.Node.CollectStatuses | crates/cl0_node/src/node.rs:745-763 | the loop collects the statuses of the reactive rules, stopping at the first error |
| NodeEngine.Node.GetRuleStatus | crates/cl0_node/src/node.rs:791-835 | the status of a rule as its handler holds it, or an error |
| NodeEngine.Node.UpdateVar | crates/cl0_node/src/node.rs:839-857 | refuses `Conflict` and changes nothing; otherwise sets the variable and returns true |
| NodeEngine.Node.StoreAtomicCondition | crates/cl0_node/src/node.rs:551-671 | the new state and result of storing a condition |
| NodeEngine.Node.ProcessRules | crates/cl0_node/src/node.rs:600-650 | the rules processed in turn, AND-ing their results |
| NodeEngine.Node.ProcessRule | crates/cl0_node/src/node.rs:862-931 | the new state and result of processing one rule |
| NodeEngine.Node.ProcessAction | crates/cl0_node/src/node.rs:230-418 | the new state and result of one action |
| NodeEngine.Node.Produce | crates/cl0_node/src/node.rs:265-363 | the new state and result of a production or consumption |
| NodeEngine.Node.RunAll | crates/cl0_node/src/node.rs:365-398 | every action of a list is run in order, and the result is the conjunction of their results |
| NodeFacts.UnsetVariableFails | crates/cl0_node/src/node.rs:691-694 | a variable never stored reads as `Conflict`, and evaluating it is an error |
| NodeFacts.ConjunctionShortCircuits | crates/cl0_node/src/node.rs:204-213 | true when every conjunct is; otherwise the outcome of the first conjunct that is not true |
| NodeFacts.DisjunctionShortCircuits | crates/cl0_node/src/node.rs:214-223 | false when every disjunct is; otherwise the outcome of the first disjunct that is not false |
| NodeFacts.EvalClassical | crates/cl0_node/src/node.rs:174-223 | over two-valued variables evaluation never fails and is classical logic, `Not` negating and parentheses passing the value |
| NodeFacts.StoreKeeps | crates/cl0_node/src/node.rs:551-671 | storing never writes `Conflict` into a variable and never removes anything |
| NodeFacts.RuleKeeps | crates/cl0_node/src/node.rs:862-931 | processing a rule never writes `Conflict` and never removes anything |
| NodeFacts.ActionKeeps | crates/cl0_node/src/node.rs:230-418 | processing an action never writes `Conflict` and never removes anything |
| NodeFacts.InitSetsVariables | crates/cl0_node/src/node.rs:101-163 | after initialisation every variable in the rules is set, and none is `Conflict` |
| NodeFacts.InitVariablesFalse | crates/cl0_node/src/node.rs:101-111 | after the store phase every variable in the rules is `False`, before any rule runs |
| NodeFacts.InitEvaluatesClassically | crates/cl0_node/src/node.rs:101-163 | after initialisation a condition over the rules' variables evaluates without error, classically |
| NodeFacts.StoreVariable | crates/cl0_node/src/node.rs:564-567 | storing a variable refuses `Conflict`, changing nothing; otherwise it sets that variable alone |
| NodeFacts.TriggerOutcome | crates/cl0_node/src/node.rs:241-263 | a trigger with no registered handler is an error; otherwise it fires the handler or reports its state |
| NodeFacts.AlternativeOutcome | crates/cl0_node/src/node.rs:399-412 | an empty alternative is an error; otherwise the outcome is that of one of its actions |
| NodeFacts.ProduceConsumeVariable | crates/cl0_node/src/node.rs:265-321 | producing a variable that names no alias sets it `True`; consuming it sets it `False` |
| NodeFacts.ListOutcome | crates/cl0_node/src/node.rs:365-398 | sequence and parallel run the same way; the result is the conjunction of the actions' results |
| NodeFacts.ActionsLoopRecords | crates/cl0_node/src/node.rs:365-398 | running a list records one result per action, after those already recorded |
| NodeFacts.DeclarativeIgnored | crates/cl0_node/src/node.rs:929-930 | a declarative rule gives false and changes nothing |
| NodeFacts.FactDefaults | crates/cl0_node/src/node.rs:912-928 | a fact without a value stores `True` for a variable and `False` for a compound |
| NodeFacts.ReactiveRegistered | crates/cl0_node/src/node.rs:870-905 | a reactive rule is registered with the handler for its identifier, and its status can then be read |
| NodeFacts.RegisteredStatus | crates/cl0_node/src/node.rs:791-835 | a registered rule's status is the value its handler holds |
| NodeFacts.RegisterAll | crates/cl0_node/src/node.rs:600-650 | processing reactive rules registers each of them and keeps earlier registrations |
| NodeFacts.StoredUnderAlias | crates/cl0_node/src/node.rs:568-600 | on a fresh node, the rules stored under a one-step alias read back, up to order and repetition |
| NodeFacts.StoreRegisters | crates/cl0_node/src/node.rs:568-650 | storing a compound of reactive rules under an alias registers each rule with its value and path |
| NodeFacts.ReadBack | crates/cl0_node/src/node.rs:698-767 | a stored compound's status reads back as the value it was stored with |
| NodeFacts.CompoundRoundTrip | crates/cl0_node/src/node.rs:568-767 | storing a compound of reactive rules under an alias on a fresh node, then getting it, gives the stored value |
| NodeFacts.ResultsLoopCollects | crates/cl0_node/src/node.rs:63-65 | the route's loop records one result per rule processed, after those already recorded |
| NodeFacts.NewRulesReportsEach | crates/cl0_node/src/node.rs:55-70 | the route reports one result per rule, the first being the first rule's own result |
| NodeFacts.NewRulesAsWrittenReportsNothing | crates/cl0_node/src/node.rs:61-67 | as written the route processes the same rules and fails alike, but reports no result |
| NodeFacts.CaseResultMissing | crates/cl0_node/src/event_handler.rs:155-157 | as written, a case rule that succeeds reports an empty vector, so reading its first result fails |
| NodeFacts.NewRulesOne | crates/cl0_node/src/node.rs:55-70 | the route on one rule gives that rule's state and its result as the only one |
| NodeFacts.ProductionCaseSetsTrue | crates/cl0_node/tests/node_test.rs:137-152 | the node of `=> +loaded.` evaluates `loaded` to true |
| NodeFacts.ConsumptionCaseSetsFalse | crates/cl0_node/tests/node_test.rs:176-192 | the node of `=> -loaded.` evaluates `loaded` to false |
| NodeFacts.FactSetsTrue | crates/cl0_node/tests/node_test.rs:434-450 | the node of the fact `loaded.` evaluates `loaded` to true |
| NodeFacts.UnrelatedRuleLeavesUnset | crates/cl0_node/tests/node_test.rs:157-172 | in the node of `#e => +a.`, evaluating `loaded` is an error |
| NodeFacts.ReactiveRuleStartsFalse | crates/cl0_node/tests/node_test.rs:216-232 | in the node of `#e => +loaded.`, `loaded` is false from creation |
| ControlPlane.PoolName | crates/cl0_node/src/control_plane.rs:57-70 | the named pool, or "pool-" followed by the node's id |
| ControlPlane.RegisterAddsOne | crates/cl0_node/src/control_plane.rs:43-54 | registration under a fresh id adds exactly that node, with the given hostname, version and time |
| ControlPlane.RegisterJoinsPool | crates/cl0_node/src/control_plane.rs:57-70 | the id is appended to its pool, which is created when absent; other pools are untouched |
| ControlPlane.FreshIdListedOnce | crates/cl0_node/src/control_plane.rs:43-70 | a fresh id is listed exactly once, in its own pool only, and every pooled id stays registered |
| ControlPlane.RegisterKeeps | crates/cl0_node/src/control_plane.rs:43-70 | registration keeps every pooled id registered |
| ControlPlane.HeartbeatKnown | crates/cl0_node/src/control_plane.rs:87-92 | a registered id gets its heartbeat time updated, nothing else changes, and the call is acknowledged |
| ControlPlane.HeartbeatUnknown | crates/cl0_node/src/control_plane.rs:87-95 | a missing or unknown id gets "Node not found" and changes nothing |
| ControlPlane.HeartbeatKeeps | crates/cl0_node/src/control_plane.rs:80-96 | heartbeats keep every pooled id registered |
| ControlPlane.TwoRegistrations | crates/cl0_node/tests/node_cp_comms.rs:94-104 | two registrations give two nodes with their versions and positive heartbeat times |
| ControlPlane.Registry.constructor | crates/cl0_node/src/control_plane.rs:133 | the registry starts empty |
| ControlPlane.Registry.RegisterNode | crates/cl0_node/src/control_plane.rs:38-78 | updates the maps as registration does, and answers with the new id |
| ControlPlane.Registry.Heartbeat | crates/cl0_node/src/control_plane.rs:80-96 | updates the map and answers as the heartbeat does |
| Server.Describe | crates/cl0_node/src/server.rs:165-178 | a pool's descriptor holds its id, its name, and each of its nodes with id and name both the node's key |
| Server.TreeOf | crates/cl0_node/src/server.rs:162-182 | the snapshot lists every pool, with all its nodes, and nothing else |
| Server.WithSession | crates/cl0_node/src/server.rs:52-60 | replacing one session leaves every other session and the topology unchanged |
| Server.ScopeSessionSpec | crates/cl0_node/src/server.rs:189-196 | fails exactly for an unspecified scope kind, changing nothing; otherwise the session exists |
| Server.NodeSessionSpec | crates/cl0_node/src/server.rs:199-204 | fails exactly for a scope that is not a node; otherwise the node is indexed |
| Server.BelowIrreflexive | crates/cl0_node/src/server.rs:346 | no id is below itself |
| Server.BelowTransitive | crates/cl0_node/src/server.rs:346 | the string order is transitive |
| Server.FirstAtLeast | crates/cl0_node/src/server.rs:346 | the first entry whose id is not below `since_id`, every earlier one being below it |
| Server.ReplaySlice | crates/cl0_node/src/server.rs:340-349 | a suffix of the history: all of it for an empty `since_id`; otherwise every dropped entry is below `since_id` and the first one sent is not |
| Server.ResyncSlice | crates/cl0_node/src/server.rs:382-387 | the last `min(200, len)` entries, in order |
| Server.CommandText | crates/cl0_node/src/server.rs:424 | ">> ", then the code, then a newline and "[result placeholder]" |
| Server.Cluster.constructor | crates/cl0_node/src/server.rs:116-125 | a cluster with no pools, no nodes and an empty control session |
| Server.Cluster.EnsurePool | crates/cl0_node/src/server.rs:127-137 | updates the state as `ensure_pool` does |
| Server.Cluster.BroadcastTree | crates/cl0_node/src/server.rs:184-186 | appends the current snapshot to the tree channel and changes nothing else |
| Server.Cluster.EnsureNode | crates/cl0_node/src/server.rs:139-150 | updates the state as `ensure_node` does |
| Server.Cluster.EnsureNodeGlobal | crates/cl0_node/src/server.rs:153-159 | updates the state as `ensure_node_global` does |
| Server.Cluster.UpsertPool | crates/cl0_node/src/server.rs:208-214 | updates the state as `upsert_pool` does |
| Server.Cluster.UpsertNode | crates/cl0_node/src/server.rs:217-219 | acts as `ensure_node` and ignores the name |
| Server.Cluster.GetScopeSession | crates/cl0_node/src/server.rs:189-196 | resolves a scope as its function does |
| Server.Cluster.GetNodeSession | crates/cl0_node/src/server.rs:199-204 | resolves a node scope as its function does |
| Server.Cluster.SetSession | crates/cl0_node/src/server.rs:434-442 | the write to one existing session that pushes to its history and sends on its channel; every other session and the topology are unchanged |
| Server.Cluster.SendCommand | crates/cl0_node/src/server.rs:414-448 | updates the state and answers as `send_command` does |
| Server.Cluster.Subscribe | crates/cl0_node/src/server.rs:319-367 | updates the state and answers as `subscribe` does, up to the join notice |
| ServerFacts.EnsureNodeExisting | crates/cl0_node/src/server.rs:139-142 | `ensure_node` on an indexed node changes nothing, whatever pool is named |
| ServerFacts.EnsureNodeAdds | crates/cl0_node/src/server.rs:127-150 | a new node joins its pool (created, named after its id, when missing) and the index, and one snapshot is broadcast |
| ServerFacts.EnsurePoolQuiet | crates/cl0_node/src/server.rs:127-137 | `ensure_pool` keeps an existing pool, creates a missing one named after its id, and broadcasts nothing |
| ServerFacts.UpsertPoolBroadcasts | crates/cl0_node/src/server.rs:208-214 | `upsert_pool` always broadcasts one snapshot; an existing pool keeps its name and nodes |
| ServerFacts.SameTopologySameTree | crates/cl0_node/src/server.rs:162-182 | the snapshot depends on the topology only |
| ServerFacts.NewClusterValid | crates/cl0_node/src/server.rs:116-125 | the new cluster is consistent: every pooled node indexed, every indexed node in exactly one pool |
| ServerFacts.EnsurePoolValid | crates/cl0_node/src/server.rs:127-137 | `ensure_pool` keeps the cluster consistent |
| ServerFacts.EnsureNodeValid | crates/cl0_node/src/server.rs:139-150 | `ensure_node` keeps the cluster consistent |
| ServerFacts.EnsureNodeGlobalValid | crates/cl0_node/src/server.rs:153-159 | `ensure_node_global` keeps the cluster consistent |
| ServerFacts.UpsertPoolValid | crates/cl0_node/src/server.rs:208-214 | `upsert_pool` keeps the cluster consistent |
| ServerFacts.RequestsKeepValid | crates/cl0_node/src/server.rs:414-448 | resolving a scope, sending a command and subscribing keep the cluster consistent |
| ServerFacts.ScopeSessionBroadcasts | crates/cl0_node/src/server.rs:189-196 | a pool scope resolves without a broadcast; a node scope broadcasts only when it creates the node |
| ServerFacts.SendCommandOutcome | crates/cl0_node/src/server.rs:414-448 | one output with the given id and the echoed code is appended to the scope's history and broadcast there; the ack echoes the code and the id |
| ServerFacts.SendCommandRefused | crates/cl0_node/src/server.rs:418-420 | a command without a scope, or with an unspecified kind, is refused and changes nothing |
| ServerFacts.ReplayInclusive | crates/cl0_node/src/server.rs:345-346 | replay is inclusive: the entry whose id equals `since_id` is the first one sent |
| ServerFacts.ReplayExactlyNewer | crates/cl0_node/src/server.rs:340-349 | with increasing ids, replay sends exactly the entries whose id is at least `since_id` |
| ServerFacts.ResyncCases | crates/cl0_node/src/server.rs:382-387 | a short history is resent whole; a long one, exactly its last 200 entries |
| ServerFacts.ResyncEndsWithLatest | crates/cl0_node/src/server.rs:382-387 | a resync after a command ends with that command's output |
| ServerFacts.CatchUpAfterSend | crates/cl0_node/src/server.rs:340-349 | after a command, subscribing with its output id replays exactly that output |
| ServerFacts.ResolvesAgain | crates/cl0_node/src/server.rs:189-196 | a scope that resolved once resolves again to the same session, changing nothing |
| Presence.CheckPresence | crates/cl0_node/src/server.rs:548-568 | a request passes exactly when it has a user id and a scope |
| Presence.UsersInScope | crates/cl0_node/src/server.rs:251-257 | exactly the stored presences whose scope is the target |
| Presence.JoinOutcome | crates/cl0_node/src/server.rs:267-291 | the entry becomes the presence; Joined for a new user, Moved for a new scope, nothing for the same scope |
| Presence.JoinIdempotent | crates/cl0_node/src/server.rs:267-291 | joining twice is joining once |
| Presence.LeaveOutcome | crates/cl0_node/src/server.rs:293-303 | a present user is removed and Left is sent; otherwise nothing changes |
| Presence.JoinThenLeave | crates/cl0_node/src/server.rs:267-303 | a join then a leave restores the other users and ends with Left |
| Presence.UpdatesKeepKeyed | crates/cl0_node/src/server.rs:267-303 | every entry stays under its own user id, so there is at most one entry per user |
| Presence.SnapshotOnePerUser | crates/cl0_node/src/server.rs:259-265 | the snapshot holds one presence per user: exactly the users' entries |
| Presence.RequestsRejected | crates/cl0_node/src/server.rs:548-568 | a request without a user id or a scope is refused and changes nothing |
| Presence.JoinedListedInScope | crates/cl0_node/src/server.rs:251-291 | a joined user is listed in the scope it joined, and only with its new presence |
| Presence.Hub.constructor | crates/cl0_node/src/server.rs:243-249 | the hub starts with no users and no updates |
| Presence.Hub.Join | crates/cl0_node/src/server.rs:267-291 | updates the hub as `join` does |
| Presence.Hub.Leave | crates/cl0_node/src/server.rs:293-303 | updates the hub as `leave` does |
| Presence.Hub.ServeJoin | crates/cl0_node/src/server.rs:548-557 | checks the request, then joins |
| Presence.Hub.ServeLeave | crates/cl0_node/src/server.rs:559-568 | checks the request, then leaves |
| Presence.Hub.Snapshot | crates/cl0_node/src/server.rs:259-265 | the loop collects exactly the stored presences |

## Left out

- Concurrency: the tasks that `Sequence` and `Parallel` spawn with a `Barrier` (node.rs:365-396) run one after another, in list order. The result is the conjunction of their results.
- The random choice of `Alternative` (node.rs:406-412) is the `pick` parameter of the hooks.
- The panic on a declarative rule inside a stored compound (node.rs:635) becomes an error result.
- node.rs calls `add_rule` and `state()` (node.rs:251,893), which the code does not define. The handlers are a map from identifier to the reactive rules registered. Their state and the outcome of firing them are the `handlerState` and `fire` parameters. `get_identifier` is the `identifier` parameter.
- The sharing of `Arc`, `DashMap` and `RwLock` values is modelled as values and, for sessions, as references by key. Two services holding the same `Arc` see one value.
- Storing, rule processing and actions recurse into each other. Their depth is bounded by a `fuel` parameter, and running out is an error the source does not have.
- The decoding of the scope kind from an `i32` is left out, because the protocol files are not part of this model. `Kind` is a datatype with an `Unspecified` case.
- The system tree and the presence snapshot are sets, because the source lists them in the map's unspecified order.
- The rules and variables of a node's status snapshot are always empty in the source and are not modelled.
- `Subscribe` is modelled up to the join notice. The live forwarding loop, lag detection, the leave notice and a failed send to the subscriber's channel are left out, because they are stream plumbing. The resync slice it sends is modelled.
- Ids (UUID v4 and v7) and clock readings are parameters.
- The message texts of errors are kept only where the source states them.
- crates/cl0_node/src/api.rs is concurrency plumbing; its `call` is a direct call.
- crates/cl0_node/src/event_handler.rs is not part of this model. Only its reading of the first result of `new_rules` is used, in the finding below.
- The protobuf conversions in types.rs:118-547 target generated types that are not part of this model.
- crates/cl0_node/src/node_client.rs is a network client.
- The `serve` bootstrap (server.rs:575-613) is transport code.
- `forward_message` and `request_rule_execution` (control_plane.rs:98-130) are unimplemented stubs.
- Error reports printed with ariadne, and the process exit, are left out. An exit is the result `Exit(1)`.
- Unicode whitespace and alphanumeric classes are approximated by their ASCII members.
- The legacy top-level crate (src/, tests/) is superseded by the crates and is not modelled.
- The directive and `r.{...}` sub-compound parser tests have no grammar in parser.rs and are not modelled.
- Pipeline.LexAndParseSpan: the error reports are not modelled, only the exit and the rules read.

## Findings

| source | as written | input that shows it | evidently intended | confidence | as-written member | corrected member |
|---|---|---|---|---|---|---|
| crates/cl0_parser/src/parser.rs:341 | the rule forms end with `Dot` (parser.rs:341,359,377,395,412,419), but the lexer emits `EndRule` for a `.` at the end of a rule (lexer.rs:26-31), so no lexed program with a rule parses | "c." | rules end with `EndRule`, so "c." reads as the fact `c` | not executed | Pipeline.FactTextAsWritten | Pipeline.FactTextCorrected |
| crates/cl0_node/src/node.rs:61-67 | the `new_rules` route allocates `results` but never pushes a rule's result, so it always returns an empty vector, while event_handler.rs:155-157 reads its first element | one case rule `=> +a.` | the route returns one result per rule, in order | not executed | NodeFacts.NewRulesAsWrittenReportsNothing | NodeFacts.NewRulesReportsEach |
