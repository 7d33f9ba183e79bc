# Proofs about cnoh, the queueing thread and the ping list

This project models three parts of the repository and proves what they promise.

* **The header generator `tools/cnoh.c`.** It tokenizes C text, collapses braces, keeps a stack of
  `#if` conditions, enters declarations into a hash table, and writes for each source file a header
  with the declarations that file needs, each once, in dependency order, in `#if` blocks.
* **The queueing thread `src/comm/caqueueingthread.c`.** Producers, a worker and a controller share
  one mutex and one condition variable.
* **The ping list `src/coap/caping.c`.** A linked list of pings that wait for the pong of section 5.4
  of RFC 8323, cut at the first one that timed out.

## Layout

| files | subject |
|---|---|
| `Lexemes`, `Spelling`, `Tokenizer`, `Tiling` | low-level tokens: their specification, what each is character by character, `GetToken` as written, and how successive calls cover a text |
| `Visible`, `Braces`, `TokenList` | `GetNonspaceToken`, `GetBigToken`, `TokenizeFile` |
| `Printer`, `RoundTrip` | `TokensToString`, and reading back what it prints |
| `Conditionals`, `ConditionalMeaning`, `DirectiveText`, `ZeroRegions`, `ConditionText` | the `#if` stack, what a preprocessor makes of the same text, directives by their spelling, what is lost with `#if 0` groups, and how conditions are joined as text |
| `DeclTable`, `GrowString` | the hash table of declarations and the growing buffer |
| `Declarations`, `References` | the database the generator works on, and which declarations a text refers to |
| `HeaderSpec`, `HeaderSteps`, `HeaderRun`, `HeaderGenerator` | the generator as functions of a state, and as methods that set flag bits in place |
| `HeaderFrame`, `HeaderItems`, `HeaderOne`, `HeaderClosure`, `HeaderCloses`, `HeaderOrder`, `HeaderOrders`, `HeaderTheorems`, `HeaderPointers`, `HeaderGroups`, `HeaderCalls` | the proofs about it |
| `QueueingThread`, `QueueingHandshake`, `QueueingStop`, `QueueingProgress` | all runs of the queueing thread |
| `PingSpec`, `PingList` | the ping list as values, and as linked records |
| `Options`, `Sequences` | the optional value and facts about sequences used throughout |

Code that works step by step is a method with loops (`InStream.GetToken`, `Generator.DeclareObject`,
`Table.InstallDecl`, `PingTable.ProcessPing`, ...) proved equal to a function of the inputs or of the
old state; the lemmas are about those functions. The queueing thread is a state machine whose steps
are the statements a thread executes between two points where another one can interfere.

`dafny verify dfyconfig.toml` checks everything.

## How the generator is modelled

A database is a sequence of declarations in installation order. The text of a declaration and of a
condition is a sequence of tokens; the header is a sequence of events (open `#if`, close `#if`,
include, forward declaration, full declaration). `DeclareObject`, `ScanText`, `ChangeIfContext` and
`AddIncludes` are mutually recursive functions of a state (declarations with `DP_Forward`,
`DP_Declared`, `DP_Flag`; include labels seen; the open condition; the output). That Dafny accepts
them shows that the recursion ends for every database: the number of unset `DP_Forward` and
`DP_Declared` bits and unseen labels (`HeaderSpec.Remaining`) drops before every nested scan. The
methods of `HeaderGenerator.Generator` clear and set the bits in the objects.

Results for every database need one fact about what the recogniser hands over: nothing with a forward
form is a typedef or a full enumeration (`HeaderFrame.WellFormed`, lines 1553-1589 and 1994-1997). The
assertion of line 2777 can fail, so `MakeHeader` yields a finished header or the state in which it was
aborted (`HeaderRun.Outcome`); the results hold for both unless they say otherwise. Results about order
and closure are for one declaration per name and for include labels that determine their include
(`HeaderItems.Simple`, lines 2147-2162). Conditions may name declared objects.

## What turned out not to hold

Each of these has a lemma with an input that shows it; most also have the exact condition under which
the code does what it should.

* The assertion of line 2777 fails for a struct, union or enum outside of all interfaces in the header
  of its own file, if the `-local` option records it: it gets a forward form and no full text (lines
  1547-1561). It holds if and only if nothing that the header forward declares lacks a text
  (`HeaderRun.HeaderFinishes`); with one declaration per name, if and only if what the file's
  identifiers lead to has no forward form of an object without a text
  (`HeaderTheorems.FinishesWithinTexts`, `HeaderTheorems.LocalTypeFails`). With assertions compiled out
  the loop would not end (`HeaderRun.TextlessStaysForward`).
* `ScanText` misses the last identifier of a text if the token before it is a declared identifier too:
  the loop ends with one token still to look at (`References.LastIdentifierIsMissed`). Declarations end
  in a newline, so this concerns `#if` texts only (`References.BlankEnd`).
* `ScanText` misses all identifiers of a directive that comes right behind a declared identifier: the
  directive is read to look for a star and then dropped (`References.DirectiveIsMissed`). Bodies of
  types keep their directives, so this concerns declarations. `References.TextReferences` has the exact
  condition for both.
* `GetToken` leaves the text if a directive ends in an odd number of backslashes right before the
  terminator (`Tiling.DirectiveLeaves`, `Tiling.TokensTileTheText`), and does not report an
  unterminated literal whose last character is an escaping backslash (`Tiling.LiteralEnds`).
* `TokensToString` never clears `skipOne` behind a keyword: it drops all later identifiers up to one
  that happens to clear it (`Printer.KeywordsAreDropped`, `Printer.ExportDropsTheDeclaration`).
* `GetNonspaceToken` drops a group that opens with `#if 0` whole: it ignores `#else` there, and `#if 0x1`
  and `#if 0 || A` count as zero because the leading 0 is read alone (`ZeroRegions.ElseOfZeroIsLost`,
  `ZeroRegions.ZerosRead`). The lines that are left are those a preprocessor compiles if and only if no
  dropped group that it gets to has a line that it compiles (`ZeroRegions.PassedMean`).
* `#if CNOH_INTERFACE` is not recognised: line 2176 compares nine characters, while the comment in
  lines 2065-2073 promises it (`Conditionals.InterfaceIsMisspelt`). The model follows the code.
* `CAProcessPing` drops a ping at once if its time stamp plus the timeout exceeds 64 bits
  (`PingSpec.CutIsExact`, `PingSpec.LongTimeoutExpiresAtOnce`).
* `GetIfString` adds no parentheses, so an `||` in one of several conditions binds wrongly
  (`ConditionText.OrIsLost`); `ConditionText.StackTextMeans` has the exact condition.
* `CAQueueingThreadStop` can return while the worker is live, and the next start makes a second worker
  (`QueueingHandshake.StopReturnsEarly`, `QueueingHandshake.AddDataBreaksTheHandshake`). Stop is woken
  after the worker's last signal if and only if it is woken by that signal
  (`QueueingHandshake.WokenByTheWorker`); from every state in which it waits and the mutex is free, one
  AddData or one spurious wakeup makes it return early (`QueueingHandshake.StopCanReturnEarly`). A run is
  free of this if and only if no such signal or wakeup comes while Stop waits
  (`QueueingStop.HeardIsUninterrupted`).
* `CATerminatePing` destroys the records and leaves `g_pingInfoList` pointing at them, and
  `CAInitializePing` does not clear it. A later `CAProcessPing`, pong or second termination makes calls on
  destroyed records if and only if a ping left there has expired by then, is answered, or is left at all
  (`PingSpec.UsedAfterTermination`).

## Model

| member | source | states |
|---|---|---|
| Lexemes.Scan | tools/cnoh.c:769-991 | The token at any position ends strictly behind it; the end-of-file token comes exactly at the end; no token but a directive ends beyond the text, and that by at most one character |
| Lexemes.Closing | tools/cnoh.c:876-890 | A C comment is closed by the first star-slash from its third character on, or by the end of the text |
| Lexemes.Run | tools/cnoh.c:813-816 | A run of characters of one class is maximal |
| Spelling.CommentEnds | tools/cnoh.c:873-901 | A C comment ends right behind its first star-slash, without error; it is a block comment exactly if it begins a line, has a line break, and each of its line breaks is followed by a star, at most one character on |
| Spelling.CommentIsOpen | tools/cnoh.c:891-898 | Without a star-slash it runs to the end and is one error |
| Spelling.LineCommentEnds | tools/cnoh.c:868-872 | The other comment runs to the end of its line |
| Spelling.IdentifierEnds | tools/cnoh.c:954-963 | An identifier takes all letters, digits and underscores that follow |
| Spelling.SpaceEnds | tools/cnoh.c:808-819 | Space takes all blanks that follow |
| Spelling.HashIs | tools/cnoh.c:788-806 | A hash is a directive exactly at the start of the text, behind a line feed, or behind a line feed and a carriage return; otherwise an operator |
| Spelling.BackslashIs | tools/cnoh.c:821-830 | A backslash takes the next character along, and is space in front of a line break |
| Spelling.OperatorIs | tools/cnoh.c:965-988 | Any other character is an operator of its own or, in twelve pairs, with its neighbour |
| Spelling.DecimalEnds | tools/cnoh.c:921-950 | A number that does not begin with zero is the longest text made of digits with an optional fraction, exponent and suffix |
| Spelling.ZeroEnds | tools/cnoh.c:909-919 | A number that begins with zero takes hexadecimal digits behind an x, and digits otherwise |
| Tokenizer.InStream.GetToken | tools/cnoh.c:769-991 | The method returns exactly the token, the error count and the new position of the specification, and adds to the line counter the newlines of the token, whatever its kind |
| Tokenizer.InStream.SkipDirective | tools/cnoh.c:792-800 | The directive loop stops at the first newline that no backslash escapes and counts those it passes |
| Tokenizer.InStream.SkipLiteral | tools/cnoh.c:832-865 | The literal loop ends and reports as specified and counts every newline once, escaped or not |
| Tokenizer.InStream.SkipComment | tools/cnoh.c:873-901 | The comment loop ends as specified; a comment is a block comment exactly if it starts at the margin, is closed, spans lines, and each further line starts with a star, at most one character in |
| Tokenizer.InStream.SkipDecimal | tools/cnoh.c:921-950 | The number loop accepts exactly digits with an optional fraction, exponent and suffix |
| Tiling.UnescapedIsFirst | tools/cnoh.c:793-799 | Skipping a character behind each backslash finds the first stop character with an even number of backslashes before it, and overshoots exactly if an odd number ends the text |
| Tiling.DirectiveEnds | tools/cnoh.c:788-806 | A directive runs to the first newline with an even number of backslashes before it |
| Tiling.LiteralEnds | tools/cnoh.c:832-865 | A literal ends behind its first unescaped quote; without one it runs to the end, and that is an error unless an escaping backslash is last |
| Tiling.SilentLiteral | tools/cnoh.c:848-862 | An unterminated literal for which no error is counted |
| Tiling.DirectiveLeaves | tools/cnoh.c:793-799 | A directive for which the position ends up behind the terminator |
| Tiling.TokensTileTheText | tools/cnoh.c:769-991 | For every text: tokens follow each other without gap or overlap, only the last is empty, each carries 1 plus the newlines before it, and their texts joined are the text if and only if the last one is not a directive ending in an odd number of backslashes |
| Visible.GetNonspaceToken | tools/cnoh.c:1003-1064 | The loop returns the next token outside of space, comments and "#if 0" regions, with all errors on the way and the right line |
| Visible.StreamIsOutside | tools/cnoh.c:994-1064 | Successive calls return exactly the tokens of the text that are neither space nor comment and outside all "#if 0" regions, as a filter of the full token list with a nesting depth |
| Visible.AllErrorsAreReported | tools/cnoh.c:1003-1064 | Successive calls report the errors of all tokens, of comments and of what is within "#if 0" regions too, and one more if such a region is open at the end |
| Visible.SafeUnlessLeaving | tools/cnoh.c:793-799 | No call leaves the text if and only if the text does not end in a directive with an odd number of backslashes |
| Braces.GetBigToken | tools/cnoh.c:1107-1183 | The brace loop returns the collapsed token of the specification, with its errors and line |
| Braces.BracesMatch | tools/cnoh.c:1107-1183 | A brace token spans from its brace to the first position where the depth over visible tokens returns to zero; it is an error exactly if there is none |
| TokenList.TokenizeFile | tools/cnoh.c:1208-1241 | The result is a list linked both ways of distinct nodes holding exactly the tokens of the file, or null if there was any error |
| TokenList.ListIsOrdered | tools/cnoh.c:1208-1241 | The tokens of the list are ordered, disjoint substrings of the text with the right line numbers |
| TokenList.ListCovers | tools/cnoh.c:1208-1241 | Every visible token of the text lies in a token of the list |
| Printer.TokensToString | tools/cnoh.c:1355-1435 | The method prints exactly the layout of the kept tokens, without the skipped range, plus the terminator |
| Printer.KeywordsAreDropped | tools/cnoh.c:1386-1407 | Exactly the keywords are left out if and only if the next identifier behind each keyword is a keyword or one that clears skipOne |
| Printer.WordInFront | tools/cnoh.c:1386-1407 | An identifier is left out exactly if it is EXPORT, PUBLIC, PRIVATE or PROTECTED, as long as no such word came before |
| Printer.WordBehindKeyword | tools/cnoh.c:1386-1407 | Behind one of them every identifier is left out unless it begins with P, has 6, 7 or 9 characters, and is none of them |
| Printer.TokenIsSpaced | tools/cnoh.c:1378-1425 | A directive gets a line of its own; a word gets a space behind a word, and so does what begins with a star or an opening brace |
| Printer.ExportDropsTheDeclaration | tools/cnoh.c:1386-1407 | "EXPORT int x ;" is printed as ";" |
| RoundTrip.PrintThenRead | tools/cnoh.c:1355-1435 | For all lists of identifiers, integers, literals, directives and operators: re-tokenizing the printed string gives back the kept tokens, kinds and texts in order, if and only if no two neighbours are glued |
| RoundTrip.PlainRoundTrip | tools/cnoh.c:1355-1435 | Lists of identifiers that are no keywords, integers and ( ) [ ] , ; * & always survive printing and re-tokenizing |
| RoundTrip.ScanPiece | tools/cnoh.c:769-991 | A token printed into any text is read back with its kind and length unless it swallows the next character, and then the token read is longer |
| RoundTrip.SlashStarIsGlued | tools/cnoh.c:1416-1425 | A slash and a star are printed as the start of a comment |
| RoundTrip.ReadIsTokens | tools/cnoh.c:769-991 | Reading back means what successive GetToken calls return, less the spaces |
| Conditionals.Parser.constructor | tools/cnoh.c:2254-2262 | At the start of a file the stack is empty and the preset flags are the initial flags |
| Conditionals.Parser.Directive | tools/cnoh.c:2267-2272 | After every directive of any text the preset flags are the initial flags with all stacked flags, the stack is the specified one, and an unmatched #else or #endif is an error that changes nothing |
| Conditionals.Parser.ParsePreprocessor | tools/cnoh.c:2075-2242 | One directive text pushes, pops or inverts the top frame as specified, including the ignored forms |
| Conditionals.Parse | tools/cnoh.c:2083-2094 | The command word and argument are read off the directive text as specified |
| DirectiveText.CommandIsRead | tools/cnoh.c:2083-2094 | "#", a gap, a word, a gap and an argument are read as the command of that word with that argument, for if, ifdef and ifndef; else and endif need none; without an argument, or with another word, the directive is ignored |
| DirectiveText.TextMeans | tools/cnoh.c:2165-2225 | For every well-nested text, whatever the spelling of its directives, and every macro assignment: the code lines whose stacked conditions all hold are those that a preprocessor compiles, inside #ifndef X exactly where X is not defined, and each has the flags of the scopes around it |
| DirectiveText.TextThatPasses | tools/cnoh.c:1036-1053 | The same for the text that is left of it without "#if 0" groups, if and only if no dropped group that the preprocessor gets to has a line it compiles |
| Conditionals.Parser.GetIfString | tools/cnoh.c:558-581 | The result is null exactly if no frame has a condition, and otherwise the conditions of all frames from the top; ConditionText says what their joined text means |
| ConditionText.JoinIsConjunction | tools/cnoh.c:564-573 | For texts that share no operand: joined by "&&" without parentheses they mean their conjunction for every assignment if and only if there is one or none has an "or" outside of parentheses |
| ConditionText.StackTextMeans | tools/cnoh.c:558-581 | The same for the texts of a stack: only arguments of #if that no #else negates are at risk |
| ConditionText.JoinedFails | tools/cnoh.c:564-573 | Otherwise there is an assignment under which the joined text holds and one of the texts does not |
| ConditionText.OrIsLost | tools/cnoh.c:564-573 | "A or B" joined with C holds for A alone |
| Conditionals.Parser.Finish | tools/cnoh.c:2432-2439 | The stack is emptied with one error for each open conditional |
| Conditionals.InterfaceIsMisspelt | tools/cnoh.c:2176-2177 | The interface scope opens for the argument "CNOH_INTE" only, so never for "CNOH_INTERFACE" |
| ConditionalMeaning.FlatIsBalanced | tools/cnoh.c:2075-2242 | Every well-nested text leaves the stack as it was and reports no error |
| ConditionalMeaning.ErrorsAreUnmatched | tools/cnoh.c:2095-2225 | For every sequence of directives: the stack has one frame for each conditional that is open, and the errors are exactly the #else and #endif at which none is |
| ConditionalMeaning.ConditionsMean | tools/cnoh.c:558-581 | For every well-nested sequence of the directives that reach the stack, and every macro assignment, the lines whose stacked conditions all hold are exactly the lines a preprocessor compiles of it (scopes count in both branches), and each line has the flags of the scopes around it |
| ZeroRegions.FlatPasses | tools/cnoh.c:1036-1053 | Counting depth drops, from every well-nested text, exactly the groups whose #if argument reads as zero, both parts of them, and comes out at the depth it started with |
| ZeroRegions.PassedMean | tools/cnoh.c:1036-1053 | For every well-nested text, what passes GetNonspaceToken and holds on the stack is what a preprocessor compiles if and only if no dropped group that the preprocessor gets to has a line it compiles in either part; in any case it is what the text without the zero groups compiles to |
| ZeroRegions.ElseOfZeroIsLost | tools/cnoh.c:1041-1053 | The #else part of "#if 0" is compiled by a preprocessor and lost |
| ZeroRegions.ZerosRead | tools/cnoh.c:1041-1041 | "0x1" and "0 or A" read as zero like "0" |
| ZeroRegions.DirectiveDepth | tools/cnoh.c:1036-1053 | For every directive of a text with a command for the stack, the character tests of GetNonspaceToken change the depth, and show the directive, as its command read by ParsePreprocessor says |
| DeclTable.Hash | tools/cnoh.c:487-496 | The loop computes the 32-bit hash with the sign cleared |
| DeclTable.HashOfTwoLetters | tools/cnoh.c:487-496 | The hash of "ab" is 3107 |
| DeclTable.Table.FindDecl | tools/cnoh.c:503-516 | The result is the first-installed declaration of exactly that name, or null exactly if there is none |
| DeclTable.Table.InstallDecl | tools/cnoh.c:522-546 | Bucket chains, same-name groups and the list in installation order stay well linked, and the declaration comes last in that list |
| DeclTable.GroupMembers | tools/cnoh.c:522-546 | A group has all declarations of its name and no others, with the first installed in front |
| DeclTable.GroupOrder | tools/cnoh.c:531-534 | By installation numbers: a group is all declarations of its name, the lowest number in front and the others in falling order |
| DeclTable.HeadsMembers | tools/cnoh.c:522-546 | A bucket holds only names that hash to it, each by its first declaration |
| DeclTable.HeadsDiffer | tools/cnoh.c:527-538 | The names in a bucket are pairwise distinct |
| DeclTable.HeadIsListed | tools/cnoh.c:503-516 | The first declaration of every installed name is in the bucket of its hash |
| DeclTable.GroupIsChain | tools/cnoh.c:522-546 | The linked groups are the groups the header generator is proved about: first, then newest to oldest |
| GrowString.String.StringAppend | tools/cnoh.c:464-480 | The buffer holds the old text with the new one, terminated in bounds, with capacity at most 3 times its text plus 100 and at most its capacity moved so far |
| GrowString.AppendAll | tools/cnoh.c:464-480 | After any appends the text is their concatenation and all reallocations moved at most 3 times its length plus 100 |
| References.TextReferences | tools/cnoh.c:2704-2759 | For every text: ScanText acts upon every declared identifier, those in directives included, with the right need for a full declaration, if and only if the text does not end in two declared identifiers and no directive holding one comes right behind a declared identifier; otherwise exactly those are missed |
| References.PointersNeedForward | tools/cnoh.c:2743-2747 | Anywhere in a text, a declared name is a mention that a forward declaration satisfies exactly if the next token, blanks aside, begins with a star |
| References.ScanTakesPointers | tools/cnoh.c:2743-2747 | ScanText asks for a full declaration of the name a text begins with exactly if the next token, blanks aside, does not begin with a star |
| References.DirectiveIsMissed | tools/cnoh.c:2741-2755 | Of a declared identifier, a directive that holds another one and a newline, only the first is acted upon |
| References.LastIdentifierIsMissed | tools/cnoh.c:2720-2757 | Of a text that consists of two declared identifiers, only the first is acted upon |
| References.BlankEnd | tools/cnoh.c:2704-2759 | A text that ends in space does not end in two identifiers |
| Declarations.Table | tools/cnoh.c:522-546 | The table lists, for each name, all declarations of that name, each once |
| HeaderSpec.ScanText | tools/cnoh.c:2704-2759 | For every database the scan ends, bits and labels only get set, and the measure does not grow |
| HeaderSpec.ChangeIfContext | tools/cnoh.c:2499-2522 | It ends for every database, although it scans the condition and is called from that scan |
| HeaderSpec.DeclareObject | tools/cnoh.c:2564-2691 | It ends for every database, with cycles and several declarations per name |
| HeaderSpec.MarkDrops | tools/cnoh.c:2627-2636 | Marking either leaves no declaration flagged or lowers the number of unset bits, so the scans that follow run on less |
| HeaderGenerator.Generator.DeclareObject | tools/cnoh.c:2564-2691 | The method on flag bits in place does what the function of the same name says |
| HeaderGenerator.Generator.ScanText | tools/cnoh.c:2704-2759 | The scanning loop with its look-ahead does what the function says |
| HeaderGenerator.Generator.ChangeIfContext | tools/cnoh.c:2499-2522 | The method does what the function says |
| HeaderGenerator.Generator.AddIncludes | tools/cnoh.c:2530-2545 | The method does what the function says |
| HeaderGenerator.Generator.ResetDeclFlags | tools/cnoh.c:2476-2485 | Afterwards exactly what is LOCAL to other files counts as declared; DP_Flag stays as it was |
| HeaderGenerator.Generator.CompleteForwardDeclarations | tools/cnoh.c:2765-2781 | The passes end, with the state the function says, or abort where the assertion fails |
| HeaderGenerator.Generator.MakeHeader | tools/cnoh.c:2790-2817 | From any bits an earlier header left, the method produces the header of the function, or aborts with its state |
| HeaderFrame.DeclareObjectFrame | tools/cnoh.c:2564-2691 | For every database: output is only appended, each item at most once, only for bits newly set; every item is in the #if of its condition; a full request leaves everything with text declared; DP_Flag of a name under way survives nested calls if names are unique |
| HeaderFrame.ScanTextFrame | tools/cnoh.c:2704-2759 | The same for a scan of any text |
| HeaderFrame.ChangeIfContextFrame | tools/cnoh.c:2499-2522 | The same for a change of context |
| HeaderFrame.AddIncludesFrame | tools/cnoh.c:2530-2545 | The same for a list of includes |
| HeaderOne.WriteMarkedOne | tools/cnoh.c:2601-2691 | A marked declaration whose flag survived the scan is written once, right after what its text brought in |
| HeaderRun.CompletedIsDeclared | tools/cnoh.c:2771-2779 | The assertion holds for a declaration if and only if it has a full text |
| HeaderRun.AssertionHolds | tools/cnoh.c:2765-2781 | The loop finishes if and only if nothing forward declared, and not declared before, lacks a full text |
| HeaderRun.HeaderFinishes | tools/cnoh.c:2790-2817 | A header is finished if and only if nothing visible that it forward declares lacks a full text |
| HeaderRun.CompletableFinishes | tools/cnoh.c:1538-1561 | It is finished whenever all visible declarations with a forward form have a full text |
| HeaderRun.TextlessStaysForward | tools/cnoh.c:2765-2781 | Without the assertion the loop would make progress for ever, as no call declares what has no text |
| HeaderRun.CompletePassProgress | tools/cnoh.c:2765-2781 | A pass that makes progress and is not aborted lowers the measure, and one that makes none leaves nothing forward-only |
| HeaderRun.WrittenAtMostOnce | tools/cnoh.c:2790-2817 | In every header of every database, finished or aborted, each include, forward and full declaration is written at most once, and nothing LOCAL to another file |
| HeaderRun.NothingForwardOnly | tools/cnoh.c:2765-2781 | No declaration of a finished header is left forward-only |
| HeaderTheorems.ScopedIsWellNested | tools/cnoh.c:2499-2522 | The running account of the open condition means: blocks do not nest, each is closed, and every item lies in the block of exactly its own condition or outside all blocks |
| HeaderTheorems.HeaderIsWellNested | tools/cnoh.c:2790-2817 | Every header of every database is well nested in that sense; an aborted one once its last block is closed |
| HeaderTheorems.HeaderIsClosed | tools/cnoh.c:2809-2817 | With one declaration per name a header contains what the identifiers of the file ask for, all that any written item needs, and, if finished, the full declaration of all it forward declares |
| HeaderTheorems.HeaderIsLeast | tools/cnoh.c:2809-2817 | It contains nothing else: it is the least set of items closed that way |
| HeaderTheorems.DeclaredIsWrittenOnce | tools/cnoh.c:2617-2691 | With one declaration per name, a visible declaration is marked declared exactly if its full text is written, and then it is written once |
| HeaderTheorems.FinishesWithinTexts | tools/cnoh.c:2765-2781 | With one declaration per name the assertion holds if and only if some closed set of items around what the identifiers ask for has full texts for all its forward forms |
| HeaderTheorems.LocalTypeFails | tools/cnoh.c:1538-1561 | A type with a forward form and no text aborts the header of its own file, and no other |
| HeaderTheorems.DependencyOrder | tools/cnoh.c:2564-2759 | With one declaration per name, each item comes after everything it needs (full declarations named without a star, forward forms, includes, what conditions name) if and only if no written item needs itself through others |
| HeaderTheorems.OrderBeforehand | tools/cnoh.c:2564-2759 | The condition on the input: a header is ordered if some closed set of items around what the file's identifiers ask for has none on a cycle; for a finished header also only if |
| HeaderTheorems.NeededComesFirst | tools/cnoh.c:2564-2759 | In an ordered header whatever an item needs, through any chain, is written before it |
| HeaderPointers.PointersMayCross | tools/cnoh.c:2743-2747 | Two structures that name each other through pointers: the header is finished, in order, and has both forward forms and both full texts once |
| HeaderPointers.ValuesMayNotCross | tools/cnoh.c:2743-2747 | By value it has them too, and is out of order |
| HeaderGroups.GroupIsWritten | tools/cnoh.c:2617-2691 | Of all declarations of one name, visible, with texts and without forward forms, a header has nothing or, once each, those that are neither typedef nor enumeration, the first enumeration, and, if there is none, the first typedef; it has them if the file names them, and then has dealt with all that their texts name and with all their #includes; in every database |
| HeaderGroups.DeclareObjectKeeps | tools/cnoh.c:2564-2691 | Every call leaves such a group alone or declares all of it, whatever it calls on the way; what is being declared keeps its flags in nested calls |
| HeaderCalls.IncludesAreOldestFirst | tools/cnoh.c:2530-2545 | A list of #includes is written oldest first, each that is not yet written once, by its oldest entry, and nothing else, where no #if has to change |
| HeaderCalls.OneTypedefIsIssued | tools/cnoh.c:2581-2593 | One call issues each missing forward form of a group, of those spelled as typedef only the first, and nothing else, where no #if has to change |
| HeaderCloses.DeclareObjectCloses | tools/cnoh.c:2564-2691 | A call starts exactly what is asked for and what that leads to, and leaves nothing half done but what was under way before |
| HeaderOrders.DeclareObjectOrders | tools/cnoh.c:2564-2691 | A call keeps the items in order as long as no item of the finished header is on a cycle |
| QueueingThread.RunIsConserved | src/comm/caqueueingthread.c:82-133 | In every state of every run the mutex has the one owner the program counters say, and each message is in one place |
| QueueingThread.MessagesAreConserved | src/comm/caqueueingthread.c:82-129 | Messages leave the queue in the order they were added; each is queued, held by one worker, or released once; it is given to threadTask at most once, before its release, and never if Destroy drained it |
| QueueingProgress.QueuedIsReleased | src/comm/caqueueingthread.c:82-129 | If Start only follows when no worker is live: while nobody asks for a stop, the live worker has given a queued message to threadTask and released it after at most six of its own steps for it and for each one before it and two more, unless Destroy released it |
| QueueingProgress.QueuedIsTaken | src/comm/caqueueingthread.c:82-108 | In every run a queued message has left the queue after at most six steps of any one worker in its loop for it and for each one before it, while nobody asks for a stop |
| QueueingProgress.WorkerIsNotStuck | src/comm/caqueueingthread.c:82-129 | A worker in its loop that is not blocked at the wait can take its next step; only where it locks must the mutex be free |
| QueueingThread.DestroyedIsDrained | src/comm/caqueueingthread.c:285-328 | After Destroy the queue is empty, and stays so as long as nobody uses the freed mutex |
| QueueingThread.AllReleasedOnce | src/comm/caqueueingthread.c:296-315 | After Destroy, with all workers gone, every message added was released exactly once |
| QueueingHandshake.NoLostWakeup | src/comm/caqueueingthread.c:85-111 | If Start only follows when no worker is live, a worker blocked at the wait has an empty queue and no request to stop, or the signal is about to be given; with any producers and spurious wakeups |
| QueueingHandshake.WokenByTheWorker | src/comm/caqueueingthread.c:131-133 | In all disciplined runs, with any producers and spurious wakeups: Stop is woken after the worker's last signal if and only if it is woken by that signal |
| QueueingHandshake.StopWaitsForTheWorker | src/comm/caqueueingthread.c:344-359 | If that signal is what wakes Stop every time, there are never two live workers, Stop returns only after the worker has left its loop and released the mutex, and no worker is started beside a live one |
| QueueingHandshake.QuietIsHeard | src/comm/caqueueingthread.c:344-359 | That is so in runs without an AddData critical section in Stop and without a spurious wakeup of it |
| QueueingHandshake.StopCanReturnEarly | src/comm/caqueueingthread.c:344-359 | From every state of a disciplined run in which Stop waits and the mutex is free, one AddData, or one spurious wakeup, leads to a return with the worker's last signal still to come |
| QueueingHandshake.StopIsNotStuck | src/comm/caqueueingthread.c:344-359 | In all disciplined runs, while Stop is blocked the worker's last signal is still to come, and the worker is not blocked: it can take its next step unless a producer owns the mutex |
| QueueingStop.HeardIsUninterrupted | src/comm/caqueueingthread.c:266-275 | For every run: the worker's signal is what wakes Stop every time if and only if no AddData signals, and no spurious wakeup of Stop comes, while Stop waits; AddData before and after the wait does no harm |
| QueueingStop.WaitIsShort | src/comm/caqueueingthread.c:344-359 | In all disciplined runs workers take at most five steps while Stop goes on waiting, and the sixth ends the wait |
| QueueingHandshake.QuietIsDisciplined | src/comm/caqueueingthread.c:210-231 | Quiet runs start no second worker |
| QueueingHandshake.StopReturnsEarly | src/comm/caqueueingthread.c:266-275 | A run in which a producer's signal makes Stop return while the worker is live |
| QueueingHandshake.AddDataBreaksTheHandshake | src/comm/caqueueingthread.c:210-231 | The same run continued to two live workers |
| PingSpec.CutIsExact | src/coap/caping.c:244-269 | On a newest-first list, cutting at the first expired ping removes exactly the pings timed out, and keeps the others in order, if and only if the newest stamp plus the timeout fits 64 bits |
| PingSpec.LongTimeoutExpiresAtOnce | src/coap/caping.c:254-254 | A ping that has not timed out and is dropped |
| PingSpec.PrependKeepsOrder | src/coap/caping.c:184-198 | Prepending keeps the list newest-first if and only if the new ping is not older than the first |
| PingSpec.OthersKeepOrder | src/coap/caping.c:244-294 | Expiry and pong removal keep the list newest-first |
| PingSpec.RunIsNewestFirst | src/coap/caping.c:184-294 | With a clock that does not run backwards the list is newest-first at every moment of every run, also when the timeout changes |
| PingSpec.EveryContextIsDeletedOnce | src/coap/caping.c:91-96 | Every run that ends in termination deletes the context of each ping sent exactly once and calls back about it at most once |
| PingSpec.CallsFollowTheList | src/coap/caping.c:244-297 | Expiry disconnects each ping that leaves the list in it once, a pong calls back about the one that it takes, both delete its context once, and no event makes any other call |
| PingSpec.DeletionsAreExplained | src/coap/caping.c:244-297 | Before termination a context is deleted as often as its session was disconnected or its pong called back, and right behind that |
| PingSpec.EachEndsOneWay | src/coap/caping.c:244-297 | A ping sent is in the list, or was disconnected, or was called back about: one of the three, once |
| PingSpec.NewestIsAnswered | src/coap/caping.c:271-294 | A pong takes the newest ping with its address and token, and no other, for tokens without zero bytes |
| PingSpec.DeletedIsUnlinked | src/coap/caping.c:244-294 | Before termination no destroyed record is in the list |
| PingSpec.NeverUsedAfterDelete | src/coap/caping.c:244-318 | No run disconnects, calls back about or deletes a ping after its context was deleted |
| PingList.PingTable.Add | src/coap/caping.c:188-198 | The new record is linked in front of the unchanged list |
| PingList.PingTable.ProcessPing | src/coap/caping.c:244-269 | The search, the cut and the deletion loop change the linked records and make the calls as specified; the list stays acyclic |
| PingList.PingTable.PongReceived | src/coap/caping.c:271-297 | The matching record is unlinked in place, called back and destroyed as specified; the list stays acyclic |
| PingList.PingTable.Terminate | src/coap/caping.c:299-318 | Every record left is destroyed once, in list order, and the head of the list stays as it was |
| PingSpec.UsedAfterTermination | src/coap/caping.c:299-318 | After any run and a termination: expiry makes a call on a destroyed record if and only if a ping left in the list has expired, a pong if and only if it answers one, and a second termination if and only if there is one |
| PingList.PingTable.SetPingTimeout | src/coap/caping.c:238-242 | Only the timeout changes |

## Left out

- The recogniser (ProcessTypeDecl, ProcessDecl, ProcessProcedureDef, ProcessInlineProc, FindDeclName): its declarations are the input of the generator.
- HeaderTheorems.DependencyOrder: for one declaration per name. Groups of several are covered by HeaderGroups if none has a forward form and all have texts, and otherwise by the results for every database (termination, at most once, `#if` context) only, since a nested call can clear the outer DP_Flag there.
- HeaderCalls.OneTypedefIsIssued: for members whose condition is the one that is open; a condition that has to be opened is scanned first and may declare anything. The same goes for IncludesAreOldestFirst.
- QueueingProgress.QueuedIsReleased: counts the worker's own steps; that it gets the mutex, and that a blocked worker is signalled, is not a matter of its steps (see NoLostWakeup).
- HeaderTheorems.HeaderIsClosed: for one declaration per name, for the same reason; likewise HeaderIsLeast, DeclaredIsWrittenOnce and FinishesWithinTexts.
- QueueingThread.DestroyedIsDrained: the model lets nobody own the mutex after Destroy, where the original would use a freed mutex and a null queue; callers must have stopped the worker and all producers before. A worker that is live then never finishes in the model (QueueingThread.DestroyStrandsWorkers, a note on the model rather than on the code).
- PingList.PingTable.Terminate: a destroyed record keeps its fields in the model, where the original frees its memory.
- PingSpec.NewestIsAnswered: for tokens without zero bytes, which strncmp takes for an end, and at least as long as the length that the pong gives.
- PingSpec.RunIsNewestFirst: the runs of this and of the other results end with the first termination; UsedAfterTermination looks at one call behind it.
- A token that is compared over more bytes than it has reads as zeros, where `strncmp` may read beyond the memory allocated for it (line 284).
- ZeroRegions.DirectiveDepth: for directives with only spaces and tabs between the `#` and the word, and with a command for the stack; at the depth of a zero group the code also counts words that merely start with "if" or "endif".
- QueueingHandshake.NoLostWakeup: for runs in which Start is not called while an old worker is live.
- Text of events: the `extern` and `extern "C"` prefixes, the C++ forms of forward declarations, the error count for C++ objects, `InsertExtraDecl` (texts have their extras from the start).
- A declaration text or a condition is a sequence of tokens, and text under `#if 0` in it counts as space; the tokenizer is proved about characters separately.
- Conditionals.Parser.GetIfString: yields the list of conditions, as expressions, where the original joins their texts without parentheses; ConditionText looks at that, for texts made of operands, `&&` and `||`.
- #elif is ignored by the code; a text with it is not one of the well-nested texts ConditionalMeaning speaks about, nor is one with two #else in a conditional.
- What #define and #include directives record (2108-2163); they leave the stack alone.
- The value of `#if` numbers too large for an int, which sscanf does not define.
- The identifier table filled on the way by GetBigToken (1071-1097), and IdentTable itself: the names of a file are an input, the table of includes is a set.
- Block comments kept for documentation, and the DEBUG and TEST code.
- Names and texts are sequences of characters below 128 in the C locale.
- What lies in memory behind the terminator of a text (a comment that ends in a newline looks one character beyond it).
- MakeGlobalHeader, file reading and writing, the comparison with the old header, reports and options.
- GrowString counts the old capacity as moved by each reallocation; whether the allocator has to move is not part of this model.
- The mutex, condition variable, thread pool, queue, allocator and clock: a lock, a set of waiters, a sequence, and numbers. Failure to allocate is not modelled, nor are the argument checks.
- The scan for a ping already sent (142-153), which does not advance; the model starts at the prepend. The clock is read outside of the lock there; PrependKeepsOrder says what that costs.
- The ping loops go through a pointer to a pointer; the methods remember the previous record instead.
- src/coap/coap_tcp_signaling.c and the example programs: nothing beyond calls into code that is not part of this repository.
