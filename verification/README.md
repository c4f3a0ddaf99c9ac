# Verified model of sigma-rs

sigma-rs turns a Sigma rule into a matching tree and runs it on events. A rule has a `condition` text and a
`detection` object. The condition is scanned into tokens by a hand-written state machine, the tokens are checked pairwise
and for balanced parentheses, and a loop with recursion builds a tree of or-of-ands over the detection items. Trees
evaluate in a three-valued logic: matched, not matched, not applicable. In production the rules run behind a consumer
with backpressure permits, a round-robin distributor with circuit breakers, workers that batch, sliding-window
aggregations and a fixed-size sample buffer for percentiles.

This project models that behaviour in Dafny 4.11 and proves it correct. `dafny verify dfyconfig.toml` checks everything.

## The main results

- **Conditions mean what they say.** Any expression over names, `not`, `and`, `or`, `1 of` and `all of`, written with
  the fewest parentheses and any layout, is scanned, checked and built into a tree whose three-valued result on every
  event is the expression's meaning (`Expressions.ExpressionMeansWhatItSays`, `EndToEnd.ConditionMeansWhatItSays`); a
  parser constructed for a detection and run does this with the detection's own `condition` entry
  (`EndToEnd.ParseDetection`). The standard is the Sigma specification, part "Detection", section "Condition": `not`
  binds tighter than `and`, `and` tighter than `or`.
- **What is accepted.** A text is accepted and well-begun if and only if it fits the limits, passes the local checks and
  reads as a condition whose parts compile (`Acceptance.AcceptedExactlyWhenACondition`); among accepted texts the
  well-begun ones are exactly the conditions (`Acceptance.AcceptedTextIsACondition`); any other accepted text without
  the begin marker is the condition that comes out when every statement is moved to the target that uses it up and a
  leading `and` is left out (`Statements.AcceptedExactlyOnceMoved`). The pairwise check and the parenthesis counter
  together characterise the grammar (`LocalChecks.LocalChecksCharacteriseTheGrammar`).
- **The lexer** terminates although it backs up, loses nothing but whitespace, and reads back every layout of a valid
  token list.
- **Detection values** of any nesting keep their meaning: object = all-of, array = any-of, strings under `|all` = all-of
  (`DetectionMeaning.RulePreservesMeaning`, `Modifiers.ListsMean`). What each modifier asks of an event's text is said
  in words of the text (`Modifiers.StringMeans`), whitespace included (`Modifiers.OwnTextMatches`).
- **The second compiler** (`src/tree/builder.rs`) is compared with the first on every token list that passes the pair
  and parenthesis checks (`TreeBuilder.CompilersCompared`). On conditions it succeeds exactly when the first does, its
  branch limit holds and its globs are allowed, with the same meaning (`TreeBuilder.CompilersAgree`).
- **Order.** Hash maps hand out keys in no fixed order, and every `them` is expanded from a fresh map;
  `KeyOrder.KeyOrderShows` says exactly when that can change a result, and `KeyOrder.TwoExpansionsMayDiffer` that two
  `them` in one condition can give a result no single order gives.
- **Escaping** keeps a pattern's meaning; both copies of the escaper compute the same forward specification.
- **The consumer**: permit counting in every interleaving, and by how much memory can exceed its limit
  (`Permits.OvershootIsBounded`); no flapping; safe distribution, told by what each worker was asked
  (`Distributor.UndeliveredByHistory`); lossless batching, and when a batch is handed over
  (`Batching.HandedOverWhenDue`); the window and the sample buffer.

## What is assumed

- `collect` does not check the first token (`src/parser/mod.rs:113`), nor that a statement is followed by `them` or a
  wildcard rather than a plain name, and it skips the check after any token spelled `<begin>`. `Acceptance.WellBegun`
  names what is missing. "and a", "1 of a" and "<begin> a" are accepted although none is a condition
  (`Acceptance.FirstTokenIsNotChecked`, `Acceptance.StatementBeforeNameIsAccepted`, `Acceptance.MarkerHidesAPair`).
- `1 of` and `all of` are recognised inside words, and a `(` right after a word swallows the word into the parenthesis
  token (`src/lexer/state.rs:38`, `src/lexer/state.rs:95`). A layout therefore needs whitespace between a word and a `(`
  (`LexerProperties.Spaced`), and a name may not contain a statement (`LexerProperties.ProperItem`).
- The second compiler keeps a statement pending after `them`, the first does not. On checked lists whose parts agree
  only the second succeeds exactly where a wildcard stands behind a statement that `them` has used up in the same group
  and the list is one the second accepts: no leading `or`, a pending statement before every target, no empty group,
  parts that compile, and the branch limit kept (`TreeBuilder.CompilersPart`, `TreeBuilder.TreeAccepts`). Of the lists
  the first builds, the second refuses exactly those with a glob that is not allowed or too many branches.
- Texts are sequences of characters, not UTF-8 bytes; the cursor moves by one for each character.
- The regex and glob engines, coercion of field values, and hash-map iteration orders are parameters: any engine, any
  event, any order of the detection's map and of the copy made for each `them`. The token and memory limits (10 000
  tokens and 10 MiB in the source) and the size of an item are parameters too.
- Whitespace at the ends of a rule's value is dropped, in an event's text it becomes one space, so a plain value with
  such whitespace never matches the identical text (`Modifiers.OwnTextMatches`). A question mark alone does not make a
  value a glob (`src/pattern/factory.rs:78`).
- Timestamps and clock readings are integers passed in, the distributor's in nanoseconds. A window's duration that
  cannot be represented counts as zero, as in the source.

## Model

| member | source | states |
|---|---|---|
| Text.EqIgnoreCaseIsSameLetters | src/lexer/token.rs:180-192 | Ignoring case identifies the two cases of each letter of the alphabet and nothing else |
| Text.WhitespaceCharacters | src/lexer/state.rs:51-53 | The characters that separate words, one by one |
| Tokens.KindsByText | src/lexer/token.rs:175-215 | Each kind is given to exactly the words it names, in any letter case, "all of" with any whitespace in and around it; so the order in which the kinds are tried does not matter; a wildcard is exactly a word with `*` or `?` |
| Lexing.LexAtIsLex | src/lexer/state.rs:36-155 | Walking a cursor over the text, with its start and position, yields the items of a definition that only splits off words from the front |
| Lexing.Lexer.constructor | src/lexer/mod.rs:40-50 | A new lexer has sent nothing and stands at the beginning |
| Lexing.Lexer.NextChar | src/lexer/mod.rs:89-105 | Gives the next character and moves by its width, or nothing at the end, with width zero |
| Lexing.Lexer.Backup | src/lexer/mod.rs:108-113 | Takes back the last character read, at most once |
| Lexing.Lexer.Ignore | src/lexer/mod.rs:116-118 | Forgets the gathered text |
| Lexing.Lexer.Emit | src/lexer/mod.rs:131-141 | Sends exactly the gathered text as one item and starts afresh behind it |
| Lexing.Lexer.LexCondition | src/lexer/state.rs:36-56 | Finds the next state without sending anything; the items still to come stay the same and the measure decreases |
| Lexing.Lexer.LexOneOf | src/lexer/state.rs:59-66 | Sends the statement with whatever was gathered before it; nothing still to come is lost |
| Lexing.Lexer.LexAllOf | src/lexer/state.rs:69-76 | Sends the statement with whatever was gathered before it; nothing still to come is lost |
| Lexing.Lexer.LexEof | src/lexer/state.rs:79-86 | Sends the last word, if any, and the end token, after which nothing is to come |
| Lexing.Lexer.LexPipe | src/lexer/state.rs:89-92 | Sends the pipe; only the unsupported rest is to come |
| Lexing.Lexer.LexLpar | src/lexer/state.rs:95-98 | Sends the parenthesis with whatever is glued to it |
| Lexing.Lexer.LexRparWithTokens | src/lexer/state.rs:101-123 | Backs up over the parenthesis, sends the word before it, and reads the same parenthesis again: no text is sent twice or lost |
| Lexing.Lexer.LexRpar | src/lexer/state.rs:126-129 | Sends the parenthesis alone |
| Lexing.Lexer.LexAccumulateBeforeWhitespace | src/lexer/state.rs:132-139 | Backs up over one whitespace character and sends the word before it |
| Lexing.Lexer.LexWhitespace | src/lexer/state.rs:142-155 | Skips the whole whitespace run and nothing else |
| Lexing.Lexer.LexAggregation | src/lexer/state.rs:158-164 | Sends all that is left as unsupported, then the end token |
| Lexing.Lexer.ProcessState | src/lexer/mod.rs:72-86 | From every state the items sent and those still to come are those that were to come, and the measure decreases although two states move back |
| Lexing.Lexer.Scan | src/lexer/mod.rs:59-70 | Terminates on every text, having sent exactly the items of its words, with the cursor at the end |
| LexerProperties.EndTokenOnceAndLast | src/lexer/state.rs:79-86 | The end token is sent exactly once, after everything else |
| LexerProperties.ItemsSpellText | src/lexer/state.rs:36-164 | The values sent, with whitespace between them, spell the text exactly, also from the middle of a word |
| LexerProperties.ItemsSpellRest | src/lexer/state.rs:36-164 | The same for a whole text: nothing but whitespace is dropped |
| LexerProperties.NoStatementInWord | src/lexer/state.rs:38-43 | No "1 of" or "all of" is recognised inside a proper word or across its end |
| LexerProperties.LexReadsLayout | src/lexer/state.rs:36-155 | Every valid list of proper items is read back exactly, kinds and values, from every spaced layout, followed by one end token |
| Grammar.ParsePrint | src/parser/mod.rs:231-386 | The condition grammar is unambiguous: the printing of every condition reads back as that condition, so no two print alike |
| Grammar.PrintReadCond | src/parser/mod.rs:231-386 | Reading a condition off the front of a token list loses nothing: printing what was read before what was left gives the list back, up to keyword spelling |
| LocalChecks.ValidateParentheses | src/parser/mod.rs:186-217 | The counter accepts or fails exactly as the recursive specification of balance and nesting says, with the same error |
| LocalChecks.ParensByHeight | src/parser/mod.rs:186-217 | Counting groups opened less those closed: no error if and only if the count stays between none and the limit and ends at none; otherwise the error says which of these is broken first |
| LocalChecks.PrintingPasses | src/parser/validate.rs:18-71 | A printed condition passes the pairwise and the parenthesis checks if and only if it is nested at most fifty deep |
| LocalChecks.LocalChecksCharacteriseTheGrammar | src/parser/validate.rs:4-71 | A token list passes the local checks if and only if it is the printing of some condition nested at most fifty deep; reading finds that condition |
| LocalChecks.CanonicalPasses | src/parser/validate.rs:4-71 | The checks depend on the kinds of tokens only, not on the spelling of keywords |
| Nodes.FieldRule.Matches | src/ast/mod.rs:214-256 | A rule never matches without applying; keywords match exactly where the event has all of them |
| Nodes.Eval | src/ast/nodes.rs:25-214 | A tree of any shape is matched only where it is applicable |
| Nodes.MatchNode | src/ast/nodes.rs:145-214 | Matching with early returns and the applicability flag gives the recursive meaning of the tree |
| Nodes.ReduceAndPreserves | src/ast/nodes.rs:122-142 | Reducing fails exactly on an empty list; otherwise the reduced node has the matched and applicable result of the conjunction, the left-biased all-of of its branches |
| Nodes.ReduceOrPreserves | src/ast/nodes.rs:176-196 | Reducing fails exactly on an empty list; otherwise the reduced node has the result of the disjunction, the any-of of its branches |
| Nodes.AnyOfIgnoresOrder | src/ast/nodes.rs:199-214 | Reordering a disjunction changes neither flag |
| Nodes.AllOfVerdictIgnoresOrder | src/ast/nodes.rs:145-155 | Reordering a conjunction never changes whether it matches |
| Nodes.AllOfOrderShows | src/ast/nodes.rs:145-155 | Some reordering of a conjunction gives another result if and only if it holds both an inapplicable and an applicable unmatched branch |
| Escaping.WrittenFits | src/pattern/escape.rs:57-70 | The output, balancing included, never needs more than twice the input's length |
| Escaping.WriteCharacter | src/pattern/escape.rs:73-110 | Writing downwards puts the pending balance, the character and a bracket's backslash in the right order directly before what is written, never below the buffer |
| Escaping.ScanBack | src/pattern/escape.rs:71-110 | After any suffix, what is written and still owed fits in two characters for each one read, and nothing is owed before a wildcard |
| Escaping.ScanCompletes | src/pattern/escape.rs:71-122 | The backward scan with its final balancing computes the forward specification: odd backslash runs not before a wildcard are completed, brackets get a backslash |
| Escaping.EscapeOwned | src/pattern/escape.rs:57-122 | The buffer writer stays inside its buffer and returns exactly the slice written, which is the forward specification |
| Escaping.NothingToEscape | src/pattern/escape.rs:23-46 | A text without backslashes and brackets is its own escape |
| Escaping.EscapeCow | src/pattern/escape.rs:23-46 | The fast path returns the forward specification too, and borrows exactly when the text has no backslash and none of the four brackets |
| Escaping.EscapeByPushing | src/pattern/string_matcher.rs:166-222 | The push-and-reverse copy computes the same text as the buffer writer, on every input |
| Escaping.EscapingPreservesMeaning | src/pattern/escape.rs:57-122 | The escaped text, read as a backslash-escaped glob, is the same list of literals and wildcards as the input read by Sigma's rules, whatever follows; no bracket of it is special |
| Escaping.ContainsPatternMeaning | src/pattern/factory.rs:29-120 | Put between two stars, the escaped text means the Sigma pattern with two free ends |
| Patterns.NewStringMatcher | src/pattern/factory.rs:29-120 | Fails if one pattern does not compile and otherwise builds the matcher of the list |
| Patterns.MatcherMeaning | src/pattern/string_matcher.rs:115-163 | A list matches if every pattern does under the all flag, and if some pattern does without it; a single pattern is its own matcher |
| Detections.ParseFieldModifier | src/parser/mod.rs:420-448 | The parts are read one by one into the key that `Modifiers.KeyIsRead` describes |
| Detections.CreateRuleFromIdent | src/parser/mod.rs:451-782 | Builds the node, or fails with the error, of the recursive definition for every kind of value |
| Detections.CreateArrayRule | src/parser/mod.rs:556-771 | Strings under `all` become one matcher; otherwise the elements that compile become a reduced disjunction, and none is an error |
| Detections.CreateComplexFieldRule | src/parser/mod.rs:795-834 | The fields that compile become a reduced conjunction, and none is an error |
| Detections.Selected | src/parser/mod.rs:866-872 | A wildcard selects exactly the names its glob matches |
| Detections.ExtractAllToRules | src/parser/mod.rs:837-857 | The first failing item fails the whole; otherwise the rules of all items, of which there must be one |
| Detections.ExtractWildcardIdents | src/parser/mod.rs:860-881 | The first failing selected item fails the whole; otherwise the rules of the selected items, of which there must be one |
| DetectionMeaning.AllStringsAgree | src/parser/mod.rs:575-607 | One conjunction matcher over all strings gives what the all-of of the separate tests gives |
| DetectionMeaning.RulePreservesMeaning | src/parser/mod.rs:451-834 | For every value of any nesting the node exists exactly when the value has a reading, and evaluates to it on every event: object = all-of, array = any-of, strings under `all` = all-of |
| Modifiers.KeyIsRead | src/parser/mod.rs:420-448 | The name is what stands before the first bar; the last part that is a word for a modifier, in any letter case, decides, and `all` counts wherever it stands |
| Modifiers.StringMeans | src/parser/mod.rs:463-484 | A string under a key asks of the event's field what the deciding modifier says, whatever other parts stand around it; without one, slashes around the value make it a regular expression and a star a glob |
| Modifiers.StartsWithMeans | src/pattern/string_matcher.rs:43-55 | Under `|startswith` the field's text must begin with the value, both as whitespace handling leaves them |
| Modifiers.EndsWithMeans | src/pattern/string_matcher.rs:67-82 | Under `|endswith` it must end with the value |
| Modifiers.ContainsMeans | src/pattern/factory.rs:50-59 | Under `|contains` it must match the glob of the escaped value between two stars; there is no reading where that does not compile |
| Modifiers.RegexMeans | src/pattern/factory.rs:45-49 | Under `|re` the text as it is must match the value as a regular expression; there is no reading where that does not compile |
| Modifiers.PlainMeans | src/pattern/factory.rs:70-106 | Without a modifier the text must equal the value, unless that has slashes around it or a star in it |
| Modifiers.OwnTextMatches | src/pattern/whitespace.rs:25-36 | A plain value matches the identical text of an event if and only if it has no whitespace at its ends or collapsing is switched off |
| Modifiers.ScalarsMean | src/parser/mod.rs:486-548 | An integer asks for the same number; a truth value, and a number that is no integer, ask for their text; no modifier changes that |
| Modifiers.ListsUnderAllMean | src/parser/mod.rs:550-598 | A list of strings under `all` is read if and only if each string is, and matched if and only if each is |
| Modifiers.ListsMean | src/parser/mod.rs:598-770 | Any other list is read if and only if some element is, and matched if and only if some is |
| Modifiers.ElementsMean | src/parser/mod.rs:603-757 | In a list, null asks for the empty text, a list inside it is left out, and anything else is read as it is alone |
| Modifiers.ObjectsMean | src/parser/mod.rs:795-834 | An object is read if and only if some field is, and matched if and only if each field that is read is matched |
| Whitespace.EveryTextSpreads | src/pattern/whitespace.rs:25-36 | Every text is words kept apart by whitespace |
| Whitespace.CollapseSpread | src/pattern/whitespace.rs:25-36 | In an event's text every whitespace run becomes one space, at the ends too |
| Whitespace.ProcessSpread | src/parser/mod.rs:785-792 | In a rule's value the words are joined by single spaces, and nothing is left at the ends |
| Whitespace.WhitespaceIsHandled | src/pattern/whitespace.rs:25-36 | The shortcut for texts without irregular whitespace changes nothing |
| Whitespace.BothSidesAgree | src/parser/mod.rs:785-792 | The two sides handle a text alike if and only if it is empty, has no whitespace at its ends, or collapsing is switched off |
| Building.ExtractGroup | src/parser/mod.rs:389-416 | Over a position, finds the same group and continuation as the recursive split, or runs to the end |
| Building.GroupShape | src/parser/mod.rs:389-416 | The group, one closing parenthesis and the rest are the list |
| Building.GroupIsBalanced | src/parser/mod.rs:186-416 | On a list that passes the parenthesis check the group is found; it is balanced and one level less deep, and what follows is balanced |
| Building.CheckedListsBuildWithoutParenthesisErrors | src/parser/mod.rs:186-386 | A list that passes the parenthesis check never makes the builder reach its depth limit, an unbalanced group or a stray closing parenthesis, whatever else is wrong with it, if the items themselves raise no such error |
| Parsing.CheckedTokensRaiseNoParenthesisErrors | src/parser/mod.rs:186-881 | Against any detection `new_branch` on tokens that pass the check never fails with one of these errors: detection values raise none |
| Parsing.Parser.constructor | src/parser/mod.rs:44-73 | A new parser is to read the text of the detection's `condition` entry, the empty text if that is missing or not a string, and has no tokens |
| Parsing.Parser.Collect | src/parser/mod.rs:93-173 | Keeps the tokens, or fails with the first error, of the token-by-token specification |
| Parsing.Parser.Parse | src/parser/mod.rs:176-184 | Checks the parentheses first, then stores the tree built from the tokens |
| Parsing.Parser.Run | src/parser/mod.rs:82-90 | Fails with the run's error or stores its tree |
| Parsing.NewBranch | src/parser/mod.rs:231-386 | The loop with its iterator and flags builds the node of the recursive specification, on every token list and depth, errors included, and draws one copy of the map for each `them` |
| Parsing.TakeToken | src/parser/mod.rs:269-368 | Each token changes the vectors and flags, or fails, as the specification of one step says |
| Parsing.TakeGroup | src/parser/mod.rs:303-314 | An opening parenthesis builds its group one level deeper and goes on behind it |
| Compilation.SplitCond | src/parser/mod.rs:389-416 | A printed condition inside a group is extracted whole, whatever it nests |
| Compilation.BuildPrinting | src/parser/mod.rs:231-386 | On a printed condition the token loop builds exactly what compiling along the grammar builds, the leftmost failure included |
| Compilation.CondMeaning | src/ast/nodes.rs:25-214 | The compiled tree exists exactly when the condition has a meaning, and evaluates to its three-valued meaning |
| EndToEnd.CollectDecides | src/parser/mod.rs:93-173 | Collecting succeeds if and only if no token is unsupported, all neighbours agree including the end, and the limits hold; it then keeps every token |
| EndToEnd.CollectComplains | src/parser/mod.rs:93-173 | Otherwise it fails with what is wrong with the first item that something is wrong with: unsupported, not allowed after the one before, one token or one byte too many, in this order; it is never an incomplete sequence |
| EndToEnd.ChainIsPairs | src/parser/mod.rs:113-122 | The pairwise check as performed is the pairwise relation, as long as no token is spelled like the begin marker |
| EndToEnd.PrintedConditionCollects | src/parser/mod.rs:93-173 | In any layout a condition is collected into its printing exactly when it is within the limits |
| EndToEnd.PrintedConditionRuns | src/parser/mod.rs:82-386 | Running the parser on a printed condition is compiling it, within the limits and the nesting bound; outside them it fails |
| EndToEnd.DetectionDenotes | src/parser/mod.rs:451-881 | Names, `them` and wildcards compiled from a detection evaluate to the detection's readings |
| KeyOrder.TargetsMean | src/parser/mod.rs:837-881 | `them` stands for every item, whatever its name but `condition`, a wildcard for those its glob matches; either has a meaning exactly when it stands for some item and all of them have readings, and then holds these readings and no others |
| Detections.EveryMapIsADetection | src/rule/detection.rs:23-30 | Every map of entries can be handed out in such orders |
| EndToEnd.ConditionMeansWhatItSays | src/parser/mod.rs:82-386 | Printed in any layout, scanned, collected, checked and built, a condition within the limits yields a tree exactly when it has a meaning, and the tree's result on every event is that meaning |
| EndToEnd.ParseDetection | src/parser/mod.rs:44-217 | A parser constructed for a detection and run: if its `condition` entry is a condition in any layout, then within the limits on tokens, memory and fifty nested groups a tree comes out exactly when the condition has a meaning, and evaluates to it on every event, and outside them an error; without a condition text no valid branches are found |
| EndToEnd.DetectionRuns | src/parser/mod.rs:44-217 | The same of the run of a parser on the text of the entry |
| EndToEnd.MemoryIs | src/parser/mod.rs:76-80 | The memory counted for tokens is their number times the overhead of one plus the characters of their values |
| Acceptance.CheckedListBuilds | src/parser/mod.rs:231-386 | A list that passes the local checks is built into what its reading compiles to |
| Acceptance.BuiltIsDisciplined | src/parser/mod.rs:231-386 | If the builder succeeds on a list whose neighbours agree, every wildcard follows its statement and no group is empty |
| Acceptance.AcceptedTextIsACondition | src/parser/mod.rs:93-184 | An accepted text is a condition if and only if its first token may begin one, every pair is allowed and no statement stands before a plain name |
| Acceptance.ConditionIsAccepted | src/parser/mod.rs:82-386 | A text that is a condition within the limits is parsed into what the condition compiles to, failures included |
| Acceptance.AcceptedExactlyWhenACondition | src/parser/mod.rs:82-386 | A text is accepted and well-begun if and only if its tokens fit the limits, pass the local checks and read as a condition that compiles; the tokens spell the text and the tree is that condition's |
| Statements.AcceptedExactlyOnceMoved | src/parser/mod.rs:82-386 | For every text: without the begin marker, acceptance makes all neighbours and parentheses agree; and a text in which they do is accepted if and only if it fits the limits and, every statement moved to the target that uses it up and a leading `and` left out, is a condition that compiles; the tree is that condition's |
| Statements.BuildIgnoresPosition | src/parser/mod.rs:231-386 | Moving every statement to the next target of its group, or dropping it where another statement or the group's end comes first, changes neither the tree nor the error |
| Statements.OthersStay | src/parser/mod.rs:231-386 | Nothing but statements moves: all other tokens stay, in their order |
| Acceptance.FirstTokenIsNotChecked | src/parser/mod.rs:113-122 | "and a" is accepted and means `a`, although it is no condition |
| Acceptance.StatementBeforeNameIsAccepted | src/parser/validate.rs:18-71 | "1 of a" is accepted and means `a`, although it is no condition |
| Acceptance.MarkerHidesAPair | src/parser/mod.rs:101-122 | "<begin> a" is accepted, although two names in a row are not allowed elsewhere |
| Acceptance.KeywordsInAnyCase | src/lexer/state.rs:36-155 | "all of them OR", a newline, "Not", a tab and "b" are read as five tokens with their spelling |
| Acceptance.PipeIsRefused | src/parser/mod.rs:93-133 | "a | b" is read as a name, a pipe and unsupported text, and is refused for the latter |
| KeyOrder.CondIgnoresOrder | src/ast/nodes.rs:145-214 | Conditions whose expansions differ only in an order that does not show have the same meaning |
| KeyOrder.KeyOrderShows | src/parser/mod.rs:837-881 | For every detection and event, some condition means something else under other key orders, one for the map and one for each `them`, if and only if the expansion of `them` or of some wildcard holds an item that does not apply and one that applies and does not match |
| KeyOrder.MixedItemsMixTargets | src/parser/mod.rs:837-881 | With all items compiling, some expansion is mixed if and only if one item does not apply to the event while another applies and does not match |
| KeyOrder.TwoExpansionsMayDiffer | src/rule/detection.rs:23-29 | Wherever items are mixed, "not all of them or all of them" can come out applicable and not matched, which it never does when both expansions have the same order |
| Expressions.CondKeepsMeaning | src/parser/mod.rs:231-386 | Writing an expression with parentheses only where precedence needs them keeps its meaning: `not` over `and` over `or` |
| Expressions.ExpressionMeansWhatItSays | src/parser/mod.rs:82-386 | Every expression within the limits, so written in any layout, is parsed into a tree that evaluates to the expression's three-valued meaning |
| TreeBuilder.ExtractGroupItems | src/tree/builder.rs:331-359 | Finds the same group as the first compiler's extraction, without pushing the closing parenthesis |
| TreeBuilder.BuildBranch | src/tree/builder.rs:107-279 | The loop with its vectors and flags and the final reduction build the node of the recursive specification, errors included |
| TreeBuilder.TakeTreeToken | src/tree/builder.rs:128-256 | Each token changes the vectors and flags, or fails, as the specification of one step says |
| TreeBuilder.ReduceBranchesPreserves | src/tree/builder.rs:288-328 | Reducing fails exactly on an empty list and otherwise gives the all-of or the any-of of the branches |
| TreeBuilder.CompilersCompared | src/tree/builder.rs:107-328 | On every list that passes the pair and parenthesis checks, in any spelling and with any first token, and with parts that evaluate alike: if no wildcard stands behind a statement used up by `them`, the second compiler succeeds exactly when the first does, the branch limit holds and the globs are allowed, and the trees give equal results; otherwise the first fails, and the second succeeds exactly on the lists it accepts |
| TreeBuilder.TreeBuildsExactly | src/tree/builder.rs:107-328 | The second compiler builds a checked list if and only if the list does not begin with `or`, every target has a statement pending by its own rule, no group is empty, its parts compile and the branch limit holds |
| TreeBuilder.GlobsAllowedExactly | src/tree/builder.rs:362-384 | A pattern is refused if and only if it has more than ten wildcards or holds `**`, `*?*` or `?*?` somewhere |
| TreeBuilder.CompilersPart | src/tree/builder.rs:177-242 | Only the second succeeds exactly on the lists it accepts in which a wildcard stands behind a statement used up by `them`; of the lists the first builds, the second refuses exactly those with a glob that is not allowed or too many branches |
| TreeBuilder.CompilersAgree | src/tree/builder.rs:107-328 | On every condition, in any spelling, and every detection to whose parts in it the second compiler gives the same results, it succeeds exactly when the first does, the branch limit holds and the globs are allowed, and its tree evaluates to the condition's meaning |
| TreeBuilder.OwnPartsAreTheSame | src/tree/builder.rs:386-419 | The same items in the map's own order are such parts, for every list, on every event whose items are not mixed, although the first compiler expands `them` in the orders of copies |
| TreeBuilder.LimitsOfCondition | src/tree/builder.rs:258-265 | The branch limit holds for a printed condition exactly when all terms but the last, plus the factors of the last, are at most 1000, in it and every group |
| TreeBuilder.SpentFails | src/parser/mod.rs:324-362 | The first compiler fails wherever a wildcard stands behind a statement that `them` has used up in its group |
| TreeBuilder.CompilersDifferOnAPendingStatement | src/tree/builder.rs:177-242 | On "1 of them and" a bare wildcard the second compiler succeeds, its statement still pending, and the first fails |
| TreeBuilder.CompilersDifferOnAText | src/tree/builder.rs:177-242 | On the text "1 of them and s*" and a detection with one item that compiles and that `s*` selects, the first compiler fails and the second, with the same item, succeeds |
| Permits.InflightCountsPermits | src/consumer/backpressure.rs:138-229 | In every interleaving of the atomic steps the in-flight counter equals the permits counted in and not yet out, and never exceeds the semaphore's initial size |
| Permits.NoUnderflow | src/consumer/backpressure.rs:455-480 | Whenever a drop is about to count its permit out, the counter is positive |
| Permits.MemoryIsExactWithoutAcquireOnly | src/consumer/backpressure.rs:66-229 | With a fixed message size estimate, tracked memory is the sum of the live reservations after every run if and only if `acquire` is not used, the estimate is zero, or a limit below it lets nothing through |
| Permits.MemoryCountsReservations | src/consumer/backpressure.rs:194-229 | In runs that use only `try_acquire` tracked memory is the sum reserved by live permits |
| Permits.AcquireBreaksMemory | src/consumer/backpressure.rs:180-191 | Without a memory limit one `acquire` and its drop leave the counter wrapped below zero, for every estimate but zero |
| Permits.GivingUpBreaksMemory | src/consumer/backpressure.rs:71-178 | With a limit one `acquire` that has reserved and gives up leaves its reservation counted for good |
| Permits.OvershootIsBounded | src/consumer/backpressure.rs:194-229 | In every interleaving of `try_acquire` with a fixed estimate, tracked memory exceeds its limit by at most one estimate for each other task |
| Permits.OvershootHappens | src/consumer/backpressure.rs:194-229 | The bound is met: two tasks pass the check before either counts, and memory is twice a limit of one estimate |
| Permits.AcquireNeedsRoom | src/consumer/backpressure.rs:71-131 | `acquire` passes its check exactly when there is room, and an exchange that succeeds keeps memory within the limit |
| Backpressure.NoFlapping | src/consumer/backpressure.rs:232-265 | Over every run the positive answers alternate starting with pause, and the resumes times the distance of the thresholds is at most the permits dropped |
| Backpressure.MeterCounts | src/consumer/backpressure.rs:138-229 | Over every run the permits in flight and those dropped are together the permits acquired |
| Backpressure.ResumptionsCostDropsExactlyAboveTheThreshold | src/consumer/backpressure.rs:232-265 | Some run resumes more often than permits are dropped if and only if the pause threshold is not above the resume threshold |
| Backpressure.CrossedThresholdsFlap | src/consumer/backpressure.rs:232-265 | With such thresholds pause and resume follow each other without a single drop |
| Backpressure.RoundedThresholdsMeet | src/consumer/config.rs:259-265 | Ratios the configuration accepts, 0.8 above 0.5, round to equal thresholds for a maximum of one, and then resumptions can be free |
| Backpressure.ThresholdRoundsDown | src/consumer/backpressure.rs:235-235 | The threshold is the whole number at or below the product of maximum and ratio, and zero for a negative product |
| Backpressure.BackpressureController.constructor | src/consumer/backpressure.rs:36-49 | A new controller has all permits available, nothing in flight and is not paused |
| Backpressure.BackpressureController.TryAcquire | src/consumer/backpressure.rs:194-229 | Gives a permit exactly when the estimate fits under the memory limit and the semaphore has one left, and counts it; these are the atomic steps of the interleaving model, one after the other |
| Backpressure.BackpressureController.Drop | src/consumer/backpressure.rs:455-480 | Dropping takes exactly the atomic steps of the interleaving model, one after the other |
| Backpressure.BackpressureController.ShouldPause | src/consumer/backpressure.rs:232-247 | Answers yes exactly when consumption is not paused and as many are in flight as the maximum times the ratio, rounded down after multiplying; a full controller with a ratio of at most one always pauses |
| Backpressure.BackpressureController.ShouldResume | src/consumer/backpressure.rs:250-265 | Answers yes exactly when consumption is paused and no more are in flight than the maximum times the ratio, rounded down after multiplying; an empty controller always resumes |
| Distributor.TryWorkers | src/consumer/consumer.rs:449-492 | The loop over the workers, with its resets, skips and failures, computes the recursive pass |
| Distributor.PassFindsFirst | src/consumer/consumer.rs:449-492 | A pass hands over to the first worker, in turn, that neither has an open circuit nor refuses, judged by the states before the pass; if there is none, all failed; every worker met has changed by its own attempt alone, the others not at all |
| Distributor.CircuitOpensAfterFiveInARow | src/consumer/consumer.rs:454-490 | Over every history: a circuit is open if and only if the worker has refused five times in a row since its last reset; while closed, the failure count is the number of refusals since it last accepted or was reset |
| Distributor.ResetStartsAnew | src/consumer/consumer.rs:454-462 | When a reset falls due the worker is tried again and its failures are counted from zero |
| Distributor.CircuitsByHistory | src/consumer/consumer.rs:454-490 | Over every history, told by the attempts at which the worker was asked alone: its circuit is open exactly when its refusals in a row are a positive multiple of five, and the failure count is the remainder |
| Distributor.AskedAgainAfterThirtySeconds | src/consumer/consumer.rs:454-470 | With an open circuit a worker is asked again if and only if more than thirty seconds have passed since it last refused; otherwise nothing changes |
| Distributor.WorkersFollowTheirTries | src/consumer/consumer.rs:429-509 | After any run a worker is in the state its own attempts have put it in: one for each pass that came to its turn |
| Distributor.CircuitsOverARun | src/consumer/consumer.rs:454-490 | Over every run of the distributor, a worker's circuit is open if and only if, of the attempts it has met since its last reset, five in a row were refused |
| Distributor.RunDistributor | src/consumer/consumer.rs:429-509 | The loop over incoming messages computes the run's state |
| Distributor.DistributionIsSafe | src/consumer/consumer.rs:429-509 | Over every run each received message is in exactly one worker's queue, once, or undelivered; a circuit is open exactly when its failures have reached five; the loop ends only with every circuit open |
| Distributor.UndeliveredExactlyWhenAllFail | src/consumer/consumer.rs:449-504 | A message goes undelivered if and only if the distributor still runs and every worker, when its turn in the pass comes, has an open circuit whose last failure is at most thirty seconds ago, or refuses |
| Distributor.UndeliveredByHistory | src/consumer/consumer.rs:449-504 | The same told by what the workers were asked: every worker is left alone, having just refused five times or a multiple of it and the last time at most thirty seconds ago, or refuses |
| Distributor.DeliveredToTheFirst | src/consumer/consumer.rs:449-507 | Otherwise it goes to the first worker, in turn, that does not fail, and to no other queue |
| Distributor.EndsExactly | src/consumer/consumer.rs:494-507 | The distributor ends exactly when a message reaches nobody and leaves every circuit open; as long as it runs, the turn moves on by one |
| Distributor.HealthyRun | src/consumer/consumer.rs:447-507 | With every worker accepting, no circuit opens, nothing goes undelivered and turns rotate |
| Distributor.RoundRobin | src/consumer/consumer.rs:449-507 | With every worker accepting, message i goes to worker i modulo the number of workers, and to no other |
| Batching.RunBatchProcessor | src/consumer/consumer.rs:576-639 | The select loop hands over the batches of the run |
| Batching.BatchesAreTheTasks | src/consumer/consumer.rs:576-639 | Over every run of receive, tick and close events the batches followed by the pending one are the messages received, in order and each once; each batch has between one and `batch_size` messages; nothing is pending after close |
| Batching.HandedOverWhenDue | src/consumer/consumer.rs:576-639 | Over every run, nothing is pending after a tick or close; every batch is what was received, without either, from where the batch before it ended to where it was full or one of them came |
| SlidingWindows.SlidingWindow.constructor | src/aggregation/sliding_window.rs:35-45 | A new window is empty |
| SlidingWindows.SlidingWindow.AddValue | src/aggregation/sliding_window.rs:48-67 | Appends the entry, drops the expired front and invalidates the cache |
| SlidingWindows.SlidingWindow.GetCurrentValue | src/aggregation/sliding_window.rs:70-88 | Whether cached or not, the value is the guarded total of the entries in their order |
| SlidingWindows.SlidingWindow.GetInterpolatedValue | src/aggregation/sliding_window.rs:90-113 | The value is the guarded total of the entries inside the window at that time, and nothing changes |
| SlidingWindows.SlidingWindow.CompactAtTime | src/aggregation/sliding_window.rs:150-167 | Drops the expired front; the cache stays valid exactly if it was and nothing was dropped |
| SlidingWindows.SlidingWindow.Clear | src/aggregation/sliding_window.rs:131-137 | Leaves no entries and a valid total of zero |
| SlidingWindows.TotalIsFinite | src/aggregation/sliding_window.rs:75-82 | The total is finite whatever is added |
| SlidingWindows.TotalIsPlainSum | src/aggregation/sliding_window.rs:75-82 | The total is the plain sum while no partial sum leaves the finite numbers; where one first does, it is the largest number |
| SlidingWindows.DropKeepsTheWindow | src/aggregation/sliding_window.rs:54-61 | Dropping from the front leaves exactly the entries inside the window if and only if no expired entry stands behind a fresh one |
| SlidingWindows.EntriesAreASuffix | src/aggregation/sliding_window.rs:48-167 | Over every run, in or out of order, the entries are the last of those inserted since the last clear |
| SlidingWindows.InOrderRunsKeepTheWindow | src/aggregation/sliding_window.rs:48-167 | Over every run with non-decreasing timestamps the entries are exactly the insertions since the last clear that are inside the window |
| SlidingWindows.HeldWhileYoungEnough | src/aggregation/sliding_window.rs:48-68 | After a run in order an inserted entry is held exactly if it is no older than the window is long |
| SlidingWindows.InterpolationIsCompaction | src/aggregation/sliding_window.rs:90-167 | At a time not before any entry, interpolation sums what compaction leaves if and only if no expired entry stands behind a fresh one |
| SlidingWindows.InOrderRunsBuryNone | src/aggregation/sliding_window.rs:90-167 | After a run in order none does, so interpolation and compaction agree |
| SlidingWindows.LateEntryIsKept | src/aggregation/sliding_window.rs:48-113 | With one late entry they differ: the window goes on counting an expired value |
| Metrics.CircularBuffer.constructor | src/consumer/metrics.rs:20-27 | A new buffer holds nothing |
| Metrics.CircularBuffer.Push | src/consumer/metrics.rs:30-36 | The contents are the last pushed items, at most the capacity, through every wrap of the head |
| Metrics.CircularBuffer.Clear | src/consumer/metrics.rs:49-52 | The contents are empty |
| Metrics.CircularBuffer.ToSortedVec | src/consumer/metrics.rs:55-77 | The items in storage order, wrapped or not, are the last pushed ones, sorted |
| Metrics.SortIsSortedPermutation | src/consumer/metrics.rs:75-76 | The sorted items are in order and the same with multiplicity |
| Metrics.CalculateStats | src/consumer/metrics.rs:264-291 | The statistics are those of the last pushed items, all zero for none |
| Metrics.PercentilesAreRanks | src/consumer/metrics.rs:278-286 | The indices are in range; each percentile is the sample of its rank; the 95th is at most the 99th; the median is at most the 95th except for two different samples |
| Metrics.PercentileRanks | src/consumer/metrics.rs:278-280 | The ranks are half of the number of samples, and 95 and 99 hundredths of one less, each rounded down |
| Metrics.MeanIsExactWithoutOverflow | src/consumer/metrics.rs:287-289 | The reported mean is the mean of the samples, rounded down, if and only if their sum fits into 64 bits |
| Metrics.MeanAfterOverflow | src/consumer/metrics.rs:287-289 | Two samples that fit into 64 bits and whose sum does not are given a mean of zero |
| Metrics.MeanRoundsDown | src/consumer/metrics.rs:287-289 | Whatever the sum, the reported mean is that of its lowest 64 bits, rounded down |

## Left out

- ParseError payloads: errors are distinguished by their kind and the token or pattern they name; messages, token contexts and rule identifiers are dropped.
- Detections.RuleOf: the warnings logged for parts that fail to compile are dropped; the parts are left out of the node as in the source.
- Text.EqIgnoreCase: `to_lowercase` is modelled for ASCII letters, and whitespace as a fixed set of characters; matchers are built with the lowercase flag off, as the parser always does.
- Lexing.Lexer.Scan: the channel to the parser, its capacity and the scanning timeout are left out; the items are a sequence.
- Escaping.EscapeOwned: works on characters instead of bytes, and requires twice the length to fit the `i32` cursor, which the source converts to unchecked.
- Escaping.EscapingPreservesMeaning: is about reading the output as a backslash-escaped glob; how the `glob` crate treats backslashes is not claimed.
- Patterns.MatcherMeaning: regular expressions and globs are compiled by an arbitrary engine; no claim about those engines.
- TreeBuilder.CompilersCompared: the second compiler's own way from detection values to nodes (`build_rule_from_ident`) is a parameter; it treats arrays as keyword lists and knows fewer modifiers, so its parts are assumed, not proved, to mean the same and its expansions not to be empty.
- Permits.MemoryIsExactWithoutAcquireOnly: the estimate is fixed over a run; `acquire` may reserve several times or not at all before it gets a permit, as its retry loop allows; the loop's timing, back-off and attempt limits are left out, and a load and its comparison are one step where the following exchange decides.
- Permits.InflightCountsPermits: `force_cleanup`, the emergency permit of a closed semaphore, and the adaptive adjustment of limits bypass the counters and are left out.
- Backpressure.BackpressureController.TryAcquire: stated for one caller at a time; the interleavings are in `Permits`.
- Backpressure.NoFlapping: the thresholds are rounded down from real products; rounding of floating-point products is left out.
- Distributor.DistributionIsSafe: sending is a decision of the worker (accepts or refuses) and clocks are readings passed in; the global in-flight count kept beside it does not balance over all runs and is left out.
- Batching.BatchesAreTheTasks: which event the select picks is arbitrary; what `process_batch` does with a batch (retries, offsets, dead letters) is left out.
- SlidingWindows.SlidingWindow.GetCurrentValue: numbers are abstract with a guarded addition; rounding is left out, as is the lock around the window.
- Metrics.PercentilesAreRanks: the indices are computed exactly; rounding of the floating-point factors is left out.
- Metrics.CircularBuffer.constructor: requires a positive capacity, as a push into a buffer without capacity panics; the only capacity in use is 1000.
- Kafka, dead-letter and HTTP or gRPC services, telemetry, rule loading and file traversal are I/O and not part of this model.
- String interning, rule counters, offset maps, retry policies, tags and log sources would add only easy members.
