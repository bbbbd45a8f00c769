# go-cop command grammar, modelled in Dafny

go-cop is a small Go library that reads command lines typed at a terminal. It
matches them against a tree of commands and arguments, runs the handler of
the best match, and offers completions for a partly typed line. This project
models its core and proves properties of the model.

The model has four parts.

- **The tokenizer** (`line_parser.go`), in `tokens.dfy` and `scanner.dfy`.
  - It splits a line into plain, double-quoted, single-quoted, whitespace
    and end-of-input tokens.
  - The accept functions that carry captured state (escape flag, counters,
    the chain of functions left) become a datatype with a pure `Step`
    function.
  - The scanner is a class with `start`, `pos` and the emitted tokens.
    `Next`, `Peek`, `Emit`, `Skip`, `AcceptWhile`, `ScanStart`, `ScanType`
    and `Run` are methods with loops.
  - `Lex` is a declarative reference definition, written in terms of the
    first unescaped stop rune. The scanner is proved to produce exactly
    `Lex(input)`.
- **The grammar tree** (`arguments.go`), in `grammar.dfy`.
  - A node is a value. Construction returns `Result`, where the original
    panics.
  - Acceptance is a family of mutually recursive functions. They cover the
    command and single-argument acceptors, every `Times` wrapper,
    `repeatAcceptPerm` and `assignChildNodes`. `repetition.dfy` states
    what a node wrapped once by `Times` assigns.
- **The path search, scoring and invocation** (`arguments.go`), in
  `search.dfy` and `invocation.dfy`.
  - The trampoline of `parseNext` and `chainProcAssignments` is a recursive
    function. It terminates by (largest pending overflow, pending count).
  - `generateCommandAssingPaths`, `Score`, best-path selection, `Invoke` and
    `InvokeCommand` are methods proved equal to the specification functions.
- **Completion, the run context and the command parser** (`autocomplete.go`,
  `gocop.go`), in `autocomplete.dfy`, `run_context.dfy` and `gocop.dfy`.
  - The argument value registry, `DefaultRunContext` and `CommandParser`
    are classes.

`wrappers.dfy` holds the `Option` and `Result` datatypes.

## Model

| member | source | states |
|---|---|---|
| Tokens.ToString | line_parser.go:20-31 | the raw text of a quoted token is its quote, the result, and its closing quote when complete; other tokens are returned unchanged; the slicing never leaves the text |
| Tokens.HasText | line_parser.go:98-105 | true exactly when some token is neither whitespace nor end-of-input |
| Tokens.Trimmed | line_parser.go:70-85 | the contiguous run from the first to the last token with text, empty when there is none; it starts and ends with text |
| Tokens.Trim | line_parser.go:70-85 | the loop of Trimmed computes Trimmed |
| Tokens.StringAppend | line_parser.go:56-62 | the text of two token slices joined is the two texts joined |
| Tokens.StringifyIsInfix | line_parser.go:64-67 | a line's text is its leading whitespace, then Stringify, then its trailing whitespace |
| Tokens.Filter | line_parser.go:87-95 | keeps exactly the tokens whose kind is in the mask, no more tokens than given |
| Tokens.FilterAppend | line_parser.go:87-95 | filtering distributes over concatenation, so the original order is kept |
| Tokens.WellFormedElements | line_parser.go:149-158 | in a well-formed token list, no token but the last is end-of-input or incomplete, and each whitespace token is followed by a word |
| Scanner.BasicStep | line_parser.go:226-270 | accepTimes accepts exactly while its count is at least 1 and counts down on every rune; untilRuneAcceptFn accepts exactly the runes that are not among its stop runes; the IsSpace function accepts exactly the runes unicode.IsSpace accepts; a function without a counter keeps its state |
| Scanner.InvertStep | line_parser.go:265-270 | invertAcceptFn accepts exactly the runes its inner function rejects, and the inner function sees every rune |
| Scanner.AcceptTimesCount | line_parser.go:226-232 | accepTimes(n) accepts exactly the first n runes offered to it, none when n is at most 0 |
| Scanner.ChainStep | line_parser.go:234-251 | when the chain accepts, every function before the one it keeps rejected the rune, the kept one is the first that accepts it and heads the chain with its new state, the ones after it are unchanged and methLeft counts them; when it rejects, every function rejected and the chain is empty with methLeft 0 |
| Scanner.Step | line_parser.go:188-201 | the escape wrapper accepts an escaped rune and a backslash, leaving the wrapped function unchanged; skipOne is set exactly after an unescaped backslash |
| Scanner.EscapeSafeStep | line_parser.go:188-201 | any other rune goes to the wrapped function, and the wrapper accepts it exactly when that function does |
| Scanner.AcceptFrom | line_parser.go:160-166 | the runes acceptWhile accepts from a position never pass the end of the line |
| Scanner.AcceptFromStep | line_parser.go:160-166 | acceptWhile offers the rune at the position and goes on after it only when it was accepted |
| Scanner.FirstUnescaped | line_parser.go:189-201 | the first unescaped stop rune at or after a position, or the end of the line |
| Scanner.PlainRun | line_parser.go:219-221 | a plain word ends at its first unescaped whitespace, or at the end of the line |
| Scanner.TrailRun | line_parser.go:273-278 | after a closing quote the escape wrapper still takes backslash pairs into the quoted token |
| Scanner.BodyRun | line_parser.go:211-218 | a quoted token runs to its first unescaped closing quote and the backslash pairs after it; the chain counter stays positive exactly when the quote is missing |
| Scanner.BodyRunEscape | line_parser.go:189-201 | inside quotes a backslash and the rune after it are taken whatever they are |
| Scanner.BodyRunClose | line_parser.go:211-218 | an unescaped closing quote ends the body of a quoted token |
| Scanner.SpaceRun | line_parser.go:205-206 | acceptWhile(unicode.IsSpace) stops exactly at the end of the whitespace run |
| Scanner.MakeGenericTypeScanner | line_parser.go:273-275 | the type scanner is for the given kind and starts with nothing left in its chain |
| Scanner.WordState | line_parser.go:207-221 | a double or single quote opens a quoted token of that quote; any other rune opens a plain word |
| Scanner.ScanWord | line_parser.go:273-288 | the type scanner stops exactly at the end of the word; it takes at least one rune, two for a closed quoted token; methLeft is positive exactly for an unterminated quoted token |
| Scanner.LexRoundTrip | line_parser.go:175-186 | the texts of the tokens of a line, joined, give the line back |
| Scanner.LexWellFormed | line_parser.go:205-224 | the tokens of any line are well formed: at least one, no error token, whitespace never empty and followed by a word, end-of-input and incomplete only last |
| Scanner.LexEmpty | line_parser.go:205-210 | the empty line gives a single empty end-of-input token |
| Scanner.LexTail | line_parser.go:282-283 | the line is the text of the tokens before the last, then the last; an end-of-input token holds the whitespace that ends the line; a line ending in a non-space rune has none; an incomplete token is last and runs from its quote to the end of the line |
| Scanner.Scanner.constructor | line_parser.go:175-180 | a new scanner starts at position 0 with no tokens |
| Scanner.Scanner.Next | line_parser.go:133-140 | reads the rune at pos and moves past it, or reports end of input without moving |
| Scanner.Scanner.Peek | line_parser.go:142-147 | returns what Next would, and leaves pos where it was |
| Scanner.Scanner.Emit | line_parser.go:155-158 | appends the token from start to pos, then moves start to pos |
| Scanner.Scanner.Skip | line_parser.go:149-153 | emits pending text as a whitespace token, and nothing when there is none |
| Scanner.Scanner.AcceptWhile | line_parser.go:160-166 | pos moves past exactly the runes the accept function accepts from where it was, as AcceptFrom says |
| Scanner.Scanner.ScanStart | line_parser.go:205-224 | skips whitespace; at the end of the line emits it as the end-of-input token and stops; otherwise emits it as a whitespace token, if there is any, and moves to the scanner of the next word |
| Scanner.Scanner.ScanType | line_parser.go:273-288 | emits one word token, which is the next token of Lex, marked incomplete when the line ended inside a quoted token; stops at the end of the line |
| Scanner.Scanner.Run | line_parser.go:168-173 | running the states from scanStart emits exactly Lex(input) |
| Scanner.Tokenize | line_parser.go:175-186 | Tokenize returns Lex(input) |
| Grammar.NewWorldNode | arguments.go:119-121 | the root: unnamed, no children, world flag and suggestion function, no handler |
| Grammar.Command | arguments.go:134-136 | AddSubCommand's node: command flag, command acceptor and suggestion function, no-op invoker |
| Grammar.Argument | arguments.go:138-140 | AddArgument's node: argument flag, single-argument acceptor, suggestion and invoker bound to its own name |
| Grammar.AddChild | arguments.go:123-132 | refuses a child whose name a sibling has; otherwise appends it last and changes nothing else |
| Grammar.Handler | arguments.go:142-145 | sets the handler and changes nothing else |
| Grammar.Times | arguments.go:162-192 | min and max are uint64; refused when max < min, max < 1, or the node is already optional or multi; otherwise Optional exactly when min is 0 and Multi exactly when max > 1, one more acceptance layer, nothing else changed |
| Grammar.Optional | arguments.go:158-160 | Times(0, 1): refused only on an optional or multi node; adds the optional flag |
| Grammar.Consume | arguments.go:34-49 | the consumed tokens and the rest rebuild the input; the consumed part is empty exactly for empty input; after its first token it holds only whitespace; the rest starts with a non-whitespace token |
| Grammar.ConsumeUnique | arguments.go:34-49 | no other split of the input has these properties |
| Grammar.ConsumeArgumentTokens | arguments.go:34-49 | the loop of the original computes Consume |
| Grammar.BaseAccept | arguments.go:63-82 | at most one assignment, of the node, splitting the input as Consume does; a command accepts exactly when its name matches, an argument exactly when there is input |
| Grammar.AcceptLayer | arguments.go:176-190 | every assignment of a Times-wrapped acceptor takes at least one token and leaves the rest of the input as overflow; the repetition count is max - 1 converted to a Go int |
| Grammar.RepeatAccept | arguments.go:84-95 | every repetition starts with the tokens taken so far and takes at least one more; its tokens and overflow rebuild the input the repetition started from; there are none once the count is used up |
| Grammar.RepeatEach | arguments.go:86-92 | the same for the repetitions after each match of the inner acceptor |
| Grammar.ChildrenAccept | arguments.go:220-225 | every child assignment takes at least one token and leaves the rest of the input as overflow |
| Grammar.AssignChildNodes | arguments.go:220-225 | the loop of assignChildNodes computes ChildrenAccept |
| Grammar.CommandAccept | arguments.go:66-75 | a command gives at most one assignment, exactly when its name matches, taking the first token and the whitespace after it |
| Grammar.ArgumentAccept | arguments.go:76-82 | an argument takes Consume's split of any non-empty input, and nothing of empty input |
| Grammar.OptionalSkips | arguments.go:176-182 | an optional node passes on to its children: every assignment the children make of the same tokens is among its own |
| Grammar.RequiredNodeAssigned | arguments.go:176-190 | a node whose Times layers all have min at least 1 assigns only itself, never its children |
| Grammar.RequiredLayer | arguments.go:183-190 | a layer that may not be skipped adds only the inner matches and their repetitions, no assignment of the children |
| Repetition.RepeatAcceptRepetition | arguments.go:84-95 | every repetition on a node with one Times layer assigns the node itself, needs a positive count, and leaves the input after the next word or after a repetition of its own from there |
| Repetition.RepeatWords | arguments.go:84-95 | such a repetition with count left leaves the input after m words, for some m from 1 to count |
| Repetition.RepetitionAfter | arguments.go:84-95 | a repetition that starts after the first word leaves the input after 2 to count + 1 words |
| Repetition.TimesCases | arguments.go:176-190 | an assignment of a node Times wrapped once is the one inner match, a child's assignment when min is 0, or a repetition of the inner match when max > 1 |
| Repetition.TimesRepeatWords | arguments.go:183-189 | the repetitions assign the node itself and take from 2 to max words; there are none when max is above 2^63, where int(max-1) is negative |
| Repetition.TimesWords | arguments.go:162-190 | a node Times wrapped once passes on a child's assignment when it may be skipped, or assigns itself from 1 to max words of its input, leaving what follows them; exactly the first word when max is at most 1 |
| Grammar.Weight | arguments.go:147-156 | 2 for a command whose trimmed text is its name, -100 for a command whose text differs, 1 for any other node |
| Grammar.IsOptionalBranch | arguments.go:202-214 | the loop of isOptionalBranch computes OptionalBranch: optional, and either a leaf or with an optional-branch child |
| Grammar.OptionalBranchHasRoute | arguments.go:199-214 | an optional branch has a route of optional nodes down to a leaf |
| Grammar.OptionalRouteIsBranch | arguments.go:199-214 | a node with such a route is an optional branch |
| Grammar.UsageOf | arguments.go:243-275 | one usage line per leaf, each starting with the prefix and the node's head |
| Grammar.Usage | arguments.go:243-275 | the recursive loop of Usage computes UsageOf |
| Grammar.UsageRoutes | arguments.go:243-275 | every usage line is the prefix followed by the heads of the nodes along a route down to a leaf, separated by spaces, and every such route has its line |
| Grammar.UsageRoute | arguments.go:243-275 | the route of a given usage line |
| Grammar.RouteUsage | arguments.go:243-275 | the line of a given route is among the usage lines |
| Search.Reported | arguments.go:399-412 | a fully matched path is reported, then one path per child of its leaf, extended by an assignment with no tokens |
| Search.ParseNext | arguments.go:383-414 | a leaf with overflow gives a next step only when a child accepts; a childless leaf with overflow is reported; a leaf with overflow whose children all reject is dropped; a fully matched path is reported with its child extensions |
| Search.ParseNextChain | arguments.go:383-398 | for a leaf with overflow, parseNext continues exactly when some child accepts part of the overflow, and its chain extends the path by each of the children's assignments, in order |
| Search.ParseNextShrinks | arguments.go:383-398 | each next-step path extends the path by one assignment that takes at least one token of the leaf's overflow, so the largest overflow shrinks |
| Search.ParseNextStep | arguments.go:383-414 | the forking step of parseNext computes ParseNext |
| Search.Fork | arguments.go:361-365 | every fork is the path followed by one of the extra assignments |
| Search.Trampoline | arguments.go:371-381 | the trampoline loop over the chained steps collects Drive, which keeps only the continuation a step returns and abandons the forks still pending |
| Search.GenerateCommandAssignPaths | arguments.go:228-241 | the search from every assignment of the root's children returns GeneratePaths |
| Search.DriveCovers | arguments.go:371-381 | every reported path splits the input along its assignments and is finished: fully matched, or ending at a childless node |
| Search.GeneratedPaths | arguments.go:228-241 | every generated path covers the line and is finished; a fully matched one holds every token of the line |
| Search.ScorePath | arguments.go:416-439 | the loops of Score compute Score |
| Search.SumWeightsBound | arguments.go:416-420 | the weights sum to at most 2 per node, and to at most 2 per node minus 102 when a command's text differs from its name |
| Search.PositiveScore | arguments.go:416-439 | a path of at most 50 nodes that scores above 0 matched all of the line, its leaf took tokens and has no children or an optional child, and every command on it was typed in full |
| Search.ScoreBound | arguments.go:416-439 | a path scores at most 2 per node |
| RunContext.DefaultRunContext.constructor | gocop.go:41-46 | a fresh context has no values, no handler, nothing run |
| RunContext.DefaultRunContext.Put | gocop.go:54-56 | afterwards Get(name) is the value, and every other name keeps its value |
| RunContext.DefaultRunContext.Get | gocop.go:57-59 | the stored value, or the empty string for a name never put |
| RunContext.DefaultRunContext.Handler | gocop.go:60-62 | the given handler replaces any earlier one |
| RunContext.DefaultRunContext.Invoke | gocop.go:67-74 | runs the selected handler once, and nothing when there is none |
| Autocomplete.Registry.constructor | autocomplete.go:9-11 | the registry starts empty |
| Autocomplete.Registry.List | autocomplete.go:13-20 | the list registered under a name, empty for a name never registered |
| Autocomplete.Registry.GetArgumentAutoSlice | autocomplete.go:13-20 | registers an empty list on first use; every name, this one included, reads the same list as before |
| Autocomplete.Registry.Append | autocomplete.go:85-92 | the name's list grows by exactly the value, and every other list is unchanged |
| Autocomplete.CommandSuggest | autocomplete.go:44-49 | suggests the command's name, and only that, exactly when there is a single token whose raw text starts the name |
| Autocomplete.CommandSuggestAccepted | autocomplete.go:44-49 | a command that suggests itself for a token would also accept that token |
| Autocomplete.StartingWith | autocomplete.go:58-62 | exactly the registered values that start with the text |
| Autocomplete.StartingWithAppend | autocomplete.go:58-62 | filtering distributes over concatenation and keeps a single value exactly when the text starts it, so the registry's order and duplicates are kept |
| Autocomplete.ArgumentSuggest | autocomplete.go:51-69 | nothing for more than one token; every registered value for empty text; otherwise exactly the registered values that start with the text |
| Autocomplete.ArgumentSuggestAppend | autocomplete.go:51-69 | for at most one token the suggestions keep the order and the duplicates of the registered values |
| Autocomplete.SuggestArgument | autocomplete.go:51-69 | the loop of the argument suggestion function computes ArgumentSuggest |
| Autocomplete.Prefixed | arguments.go:329-334 | one completion per suggestion, each the prefix followed by that suggestion |
| Autocomplete.PathTextIsString | arguments.go:324-327 | the prefix built from a path's assignments is the text of all their tokens |
| Autocomplete.SuggestPath | arguments.go:320-337 | the loops of SugestAutoComplete compute PathSuggest |
| Autocomplete.SuggestWorld | autocomplete.go:34-41 | the loop of worldSugestorFn computes WorldSuggest |
| Autocomplete.PathCompletion | arguments.go:320-337 | for a path that covers the line, the text before the leaf, the leaf's text and its overflow make up the line, and every completion starts with the text before the leaf |
| Autocomplete.LineCompletion | autocomplete.go:34-41 | for every path generated from a tokenized line, the same holds against the line itself |
| Autocomplete.SuggestAllMembers | autocomplete.go:34-41 | every completion of the world comes from one of the generated paths |
| Invocation.Invoke | arguments.go:441-449 | the values, the handler and the registry become those the assignments give in order, and the selected handler runs once afterwards |
| Invocation.HandlerLast | arguments.go:441-449 | the handler that runs is that of the last node on the path that has one |
| Invocation.HandlerKept | arguments.go:441-449 | a path without handlers keeps the handler selected before |
| Invocation.ListsRecorded | autocomplete.go:85-92 | after invoking, a name's list is its old list followed by the values the path recorded under that name, in order |
| Invocation.ValuesLastRecorded | autocomplete.go:85-92 | after invoking, a name holds the last value the path recorded under it; a name with no recorded value keeps what it had |
| Invocation.Best | arguments.go:283-292 | none exactly when no path scores above 0; otherwise a path with the highest score, which is positive, and no earlier path scores as much |
| Invocation.SelectPath | arguments.go:283-292 | the selection loop computes Best |
| Invocation.ContainsAt | arguments.go:300 | the containment test holds exactly when the text occurs at some offset |
| Invocation.FirstField | arguments.go:298 | a prefix of the line with no space, followed in the line by a space unless it is the whole line |
| Invocation.MatchingUsage | arguments.go:297-303 | exactly the usage lines that contain the word, no more lines than given |
| Invocation.MatchingUsageAppend | arguments.go:299-303 | the filter distributes over concatenation and keeps a single line exactly when it contains the word, so the lines keep their order |
| Invocation.Error | arguments.go:17-31 | the loop of Error computes ErrorText |
| Invocation.JoinLines | arguments.go:23-26 | the loop over the close matches writes each usage line followed by a newline, in order |
| Invocation.LinesContain | arguments.go:23-26 | every usage line appears in the list followed by a newline |
| Invocation.ErrorTextParts | arguments.go:17-31 | the error text starts with the message on its own line, ends with the help hint, and shows every close match on a line of its own |
| Invocation.FilterUsage | arguments.go:299-303 | keeps exactly the usage lines that contain the command word, in their order |
| Invocation.InvokeCommand | arguments.go:277-309 | returns the unknown-command error exactly when the outcome is unknown; runs the chosen path and changes the context and registry as Invoke says; changes nothing otherwise |
| Invocation.LexHasText | line_parser.go:98-105 | a tokenized line has text exactly when it holds a rune that is not whitespace |
| Invocation.OutcomeSilent | arguments.go:278-279 | a line does nothing exactly when it is all whitespace |
| Invocation.OutcomeRan | arguments.go:283-296 | the path that runs is a generated path with the best score, which is positive; if it has at most 50 nodes it took every token, and its text is the line |
| Invocation.OutcomeUnknown | arguments.go:296-305 | the line is unknown exactly when it has text and no path scores above 0; the message names the line, and the usage lines are exactly those that contain its first word |
| GoCop.HelpCommand | gocop.go:109-111 | the help command runs printHelp and has one child, the optional argument help_argument |
| GoCop.AddStandardCommands | gocop.go:109-111 | appends the help command last, changing nothing else, and is refused when a sibling is already named help |
| GoCop.StandardWorld | gocop.go:100-107 | a root whose only child is the help command |
| GoCop.StandardUsage | gocop.go:113-118 | the usage printHelp prints for the standard world is the single line of help and its optional argument |
| GoCop.CommandParser.constructor | gocop.go:85-90 | a new parser has no world |
| GoCop.CommandParser.NewWorld | gocop.go:100-107 | installs and returns the standard world |
| GoCop.CommandParser.AutoCompleter | gocop.go:92-98 | nothing before there is a world; otherwise the world's suggestions for the tokenized line |
| GoCop.CommandParser.NewRunContext | gocop.go:120-122 | a fresh, empty run context |
| GoCop.CompletionsKeepLine | gocop.go:92-98 | the parser has a world, and every completion offered for a line is the line's text up to the leaf of one of its generated paths, followed by one of that leaf's suggestions |
| GoCop.WorldCompletionKeepsLine | autocomplete.go:34-41 | the same for the world's suggestions of a tokenized line |
| GoCop.CompletionsOffered | gocop.go:92-98 | every suggestion of the leaf of every generated path is offered, after the line's text up to that leaf |

## Left out

- The goroutine and channel of Tokenize: the scanner runs sequentially and appends to a sequence.
- UTF-8 decoding in scanner.next: a line is a sequence of runes, and whitespace is Go's unicode.IsSpace on runes.
- StartsWithIgnoreCase: nothing calls it, and it relies on Unicode case mapping.
- MainLoop, the body of printHelp, liner and the terminal colours are interactive input and output. Only the usage that printHelp prints is modelled (GoCop.StandardUsage).
- examples/gocop-irc.go is a network client built on the library.
- Handlers are opaque program callbacks. A handler is a number, and running it is recorded in the run context's `invoked` list.
- The log output of DefaultRunContext.Invoke when there is no handler is not modelled.
- commandAssignPath.String is debug printing.
- Trees are built bottom-up as values, not by pointer updates. A node is complete before it is added to its parent, while the original can add children to a node that is already in the tree.
- AddCustomNode with custom suggestion, invoker or accept functions is not modelled, nor is replacing a node's suggestion function. Only the command and argument nodes of AddSubCommand and AddArgument are.
- Panics of AddCustomNode and Times become `Err` results.
- The panic of worldAcceptorFn is not modelled: the root is never a child, so its acceptor is never called.
- commandAcceptorFn indexes the filtered tokens without checking; the model rejects instead of panicking. That case is several tokens with no text, which Tokenize never produces and consumeArgumentTokens never leaves as overflow.
- The world suggestion function at a path's leaf yields nothing in the model. Only the root carries it, and the root is never a path's leaf.
- The root node's nil invoker is not modelled: the root is never on a path.
- The registry entry that AddArgument creates at construction time is not modelled. The entry appears at the first append instead, so List reads the same empty list either way.
- Grammar.AcceptLayer: its contract states only that each assignment splits the input. What a layer assigns is stated for a node with one Times layer (Repetition.TimesWords) and, for nodes that may not be skipped, by Grammar.RequiredNodeAssigned; the order of the candidates is given by the definition.
- Go's int is taken to be 64 bits wide: GoInt converts a uint64 above 2^63 - 1 to a negative number, as int(max-1) does on 64-bit platforms.
- Search.PositiveScore: holds for paths of at most 50 nodes. Longer paths could outweigh the penalty of 100 with their node weights.
- The path counts in the original's tests (5 paths for "cmd sub  ", one for the three-argument line) are not stated as lemmas. The fork-dropping that produces them is modelled by Search.Trampoline and Drive.
