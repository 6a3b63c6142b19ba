# Verified model of the Python front end

This project models the parts of the Python front end that decide where things are in a
source file and what they mean before the grammar looks at them, and proves what the rest
of the program relies on:

- the lexer (`lexer.rs` with its cursor, indentation stack and f-string contexts), the token
  source that looks ahead, rewinds and re-lexes, and the token list that is searched afterwards;
- the decoder of string, bytes and f-string contents;
- the three views of lines: the double-ended iterator, the line index and the locator;
- resolution of imports over an abstract file system;
- storage, collection and display of dotted names.

## How it is built

Code that changes state is modelled as classes and methods that change the same state
(`Lexer`, `TokenSource`, `StringParser`, `UniversalNewlineIterator`, `SegmentsVec`, the resolver's
loops). Each such method is proved equal to a function from state to state. Where the program
is fast, the function is simple: the lexer jumps from quote to quote and counts backslashes,
the function reads one character at a time; the lexer copies f-string text lazily, the function
builds it eagerly; the decoder searches for the next backslash, the function walks. The theorems
are about the functions, for every state or for every run.

`LexerSteps` describes what one step can do to each part of the lexer's state, by the kind of
token (`CharacterEffect`, `BeforeEffect`); `LexerRuns`, `LexerInvariants`, `TokenSourceSpec`,
`SessionLevels` and `LexedStrings` draw their conclusions from that description;
`TokenText`, `LiteralText` and `LineLevels` say what each token is by the source text alone. Lemma bodies hide the definitions
they do not need, which keeps each proof small.

Conventions:

- The lexer's source is a sequence of Unicode scalar values and a position counts those.
  The program counts UTF-8 bytes. `Utf8` proves that this changes neither order nor emptiness,
  and that a search for an ASCII byte finds the ASCII character. The line modules work on bytes.
- The cursor's fields (`pos`, `start`) are fields of the lexer.
- Keywords and operators carry their spelling instead of one kind each.
- The tables of other libraries are parameters: the two XID properties, NFKC, the
  floating-point parser, the Unicode name table, the file system with its `py.typed` files
  and directory listings.
- A path is the sequence of its names, none of them empty; joining an empty name leaves it as it is.
- Binary searches of the standard library are any result that its documentation allows, so the
  statements hold whichever of several equal keys a search hits.

## What turned out different from the comments or from what one would expect

- `lexer.rs:631` says the flag tells whether the identifier is ASCII. It also covers the
  character that ends the identifier, so a keyword right before a non-ASCII character is a name
  (`Words.KeywordToken`, `Words.KeywordBeforeNonAscii`).
- `string.rs:197` asks when a string can end inside an escape: never, for a string or bytes token
  (`LexedStrings.LexedStringsNeverRunOut`); and in general exactly for texts with an unpaired backslash that one
  more backslash would make decodable (`Decoder.RunsOutExactlyWhen`).
- Section 2.1.8 of the Python Language Reference lets the whitespace before the first backslash determine the
  indentation of a joined line. The lexer takes what follows the last line break joined over
  (`IndentRule.MeetsSectionExactlyWhen`, `IndentRule.JoinedIndentIsLost`).
- The section rejects indentation whose meaning depends on the worth of a tab. The lexer tries the worths one and
  two, and accepts some indentation that depends on others (`IndentRule.MixingRule`,
  `IndentRule.TabAgainstEightSpaces`).
- Rewinding a token source keeps its tokens in order when checkpoints are returned to in reverse order
  of being taken. In other orders it can fail without any re-lexing (`RewindOrder.OutOfOrderRewinds`);
  `RewindOrder.RewindKeepsOrder` gives the comparison that decides it.
- A module result can be found and partly resolved at once when partial results are asked for
  (`Resolver.ExclusiveUnlessPartial`); no caller in `resolver.rs` asks for them.
- The second comparison of `py.typed` information in `pick_best_import` can never be true; it is kept as written.
- `Locator::line_start` differs from the line index between the bytes of a CRLF and on a first line with a
  byte order mark, and nowhere else (`Locator.LineStartAgrees`).
- A dotted name that begins with a dot is not shown as it was written (`Names.ShowUndoesFromDotted`).

## Model

| member | source | states |
|---|---|---|
| LexerRuns.StepMakesProgress | crates/python_parser/src/lexer.rs:146-354 | From any state whatever, a step that does not return EndOfFile strictly decreases: remaining text, then open f-strings, then nesting above 0, then levels, then a pending width, then the line state |
| LexerRuns.Lexing | crates/python_parser/src/lexer.rs:146-156 | Lexing to the end of the file is a total function of the state: it ends with EndOfFile and has none before |
| LexerRuns.EndOfFileIsFinal | crates/python_parser/src/lexer.rs:1293-1313 | EndOfFile comes only with no bracket, f-string, level or pending width left, and every later step returns it again and changes nothing |
| LexerRuns.LexingIsARun | crates/python_parser/src/lexer.rs:146-156 | The states of a whole lexing are successive steps |
| LexerRuns.StepKeepsOrder | crates/python_parser/src/lexer.rs:139-156 | A token lies between the cursor before the step and the cursor after it; one error is added, at the token's range, exactly when the token is Unknown |
| LexerRuns.RunIsSorted | crates/python_parser/src/lexer.rs:146-156 | The tokens of any run are in order, do not overlap and lie in the text |
| LexerRuns.ByteOrderMark | crates/python_parser/src/lexer.rs:81-111 | A byte order mark is skipped at the very beginning of a source and nowhere else |
| LexerRuns.StepLosesNothing | crates/python_parser/src/lexer.rs:146-354 | From any state, a step passes over blanks and joined line breaks only, and everything from there to the new cursor belongs to its token or its error |
| LexerRuns.RunLosesNothing | crates/python_parser/src/lexer.rs:146-354 | Between one token of a run and the next there is nothing in the source but blanks and joined line breaks, unless an error lies there |
| LexerRuns.MarkIsForgotten | crates/python_parser/src/lexer.rs:146-149 | The cursor's token mark decides nothing about any later token |
| LexerRuns.LookAheadIsPure | crates/python_parser/src/lexer.rs:1446-1493 | After any number of steps, rewinding to a checkpoint gives back the lexer up to the token mark, errors included, and the rest of the file lexes as before |
| LexerSteps.CharacterHasEffect | crates/python_parser/src/lexer.rs:192-221 | What lexing one character's token does to nesting, f-strings, levels, pending width, line state and errors, for every kind of token |
| LexerSteps.PunctuationEffect | crates/python_parser/src/lexer.rs:359-603 | The same for brackets, operators, line breaks and unknown characters |
| LexerSteps.IdentifierEffect | crates/python_parser/src/lexer.rs:606-695 | The same for words and for strings and f-strings with a prefix |
| LexerSteps.BeforeHasEffect | crates/python_parser/src/lexer.rs:158-190 | What can be emitted before the first character of a token (f-string text, indentation of exactly the width of the blanks before it, dedents, errors) and what it changes; otherwise where the lexer is left |
| TokenText.CharacterSpelled | crates/python_parser/src/lexer.rs:359-603 | Every first character decides what token it begins or what error it is, and the token is spelled as its kind is |
| TokenText.StepIsSpelled | crates/python_parser/src/lexer.rs:146-354 | From any state: the source text of a token is the spelling of its bracket, operator or keyword, one whole line break, a comment up to the line break, a whole word with its value, or a number with its value |
| TokenText.WordText | crates/python_parser/src/lexer.rs:638-695 | A word is as long as can be; its value is its text if it looks ASCII and is no keyword, and else the text in normal form |
| TokenText.EndBegins | crates/python_parser/src/lexer.rs:1293-1313 | Where only blanks are left: an error for open brackets, then a Newline, then Dedents, then the end of the file |
| TokenText.OnlyLiteralsHaveFlags | crates/python_parser/src/lexer.rs:146-156 | No token but a literal or an error has flags |
| LiteralText.StepReadsLiterals | crates/python_parser/src/lexer.rs:697-748 | From any state: a String token is a prefix, quotes, its value and the same quotes, the first ones that no backslash escapes; an FStringStart is a prefix and quotes; the flags are those of the prefix's letters and of the quotes; an FStringEnd is the quotes that the f-string remembers |
| LiteralText.FStringsRememberQuotes | crates/python_parser/src/lexer.rs:730-748 | Over any run each open f-string was opened by an FStringStart of the run and remembers its prefix and quotes |
| LiteralText.FStringEndMatchesStart | crates/python_parser/src/lexer.rs:750-766 | Over any run an FStringEnd is, character by character, the quotes that opened the innermost f-string |
| LiteralText.BrokenFString | crates/python_parser/src/lexer.rs:766-801 | An f-string that cannot go on is closed with an error that says why and covers its text |
| LexerInvariants.StepKeepsInvariant | crates/python_parser/src/lexer.rs:146-156 | Without re-lexing, every step keeps: the start of a logical line and a pending width imply no open bracket and no open f-string; f-strings properly nested in replacement fields; nesting at most the position; levels strictly increasing in both measures (which re-lexing keeps too, see `StepKeepsIncreasing`) |
| LexerInvariants.InitKeepsInvariant | crates/python_parser/src/lexer.rs:81-111 | A new lexer satisfies the invariant at every start offset |
| LexerInvariants.RunKeepsInvariant | crates/python_parser/src/lexer.rs:146-156 | So does every state of every run |
| ReLexNesting.StayingKeepsInvariant | crates/python_parser/src/lexer.rs:1370-1396 | A re-lex that does not move keeps the invariant exactly when no bracket is open, or a replacement field or no f-string is, or the last bracket is given up at the end of the text |
| ReLexNesting.MovingKeepsInvariant | crates/python_parser/src/lexer.rs:1397-1417 | One that moves keeps it after a closing bracket and in a replacement field, if no more brackets are open than there is text before the line break |
| ReLexNesting.ReLexesLoseNesting | crates/python_parser/src/lexer.rs:1370-1396 | A source for which two re-lexes leave an f-string open in a bracket that no longer is |
| LexerInvariants.StepDepth | crates/python_parser/src/lexer.rs:169-190 | Indent pushes one deeper level, Dedent pops one, an indentation error pops one exactly when the line fits no open level, and nothing else changes the levels |
| LexerInvariants.IndentationOutsideBrackets | crates/python_parser/src/lexer.rs:274-321 | Indent and Dedent appear only at nesting 0 with no open f-string |
| LexerInvariants.IndentsAreConserved | crates/python_parser/src/lexer.rs:169-190 | Over any run, from any state: levels before plus Indents equals Dedents plus failed dedents plus levels after |
| LexerInvariants.IndentsBalance | crates/python_parser/src/lexer.rs:1307-1312 | Over a whole file no prefix has more Dedents than Indents, and the totals agree exactly when no line failed to fit an open level |
| LineLevels.LineDecides | crates/python_parser/src/lexer.rs:274-321 | A line's width is that of the blanks before its content: deeper than the current level it gives an Indent of exactly that width, equal to it nothing, and less deep a Dedent, or an error if it fits no open level |
| LineLevels.PendingDecides | crates/python_parser/src/lexer.rs:169-190 | What a width that is still owed gives, for each way it can compare |
| LineLevels.LineIsAtItsLevel | crates/python_parser/src/lexer.rs:169-321 | When the first own token of a line comes, after whatever Indent or Dedents, the current level is exactly the line's width |
| LineLevels.EqualLinesAreOneBlock | crates/python_parser/src/lexer.rs:169-321 | Two lines of one width with only tokens of their own between them are at one level |
| LineLevels.BlankLineKeepsLevels | crates/python_parser/src/lexer.rs:262-272 | Empty lines and comment lines enter and leave no level, however they are indented |
| LexerInvariants.StepKeepsIncreasing | crates/python_parser/src/lexer.rs:274-321 | From any state, re-lexed or not, a step keeps the levels strictly increasing in both measures |
| LexerInvariants.ReLexKeepsIncreasing | crates/python_parser/src/lexer.rs:1370-1417 | So does re-lexing, at whatever position |
| LexerInvariants.MovesConserveIndents | crates/python_parser/src/lexer.rs:1370-1417 | Over any sequence of steps and re-lexes: levels before plus Indents equals Dedents plus failed dedents plus levels after, and the levels stay strictly increasing |
| LexerInvariants.NewlineRealigns | crates/python_parser/src/lib.rs:538-543 | From any state, re-lexed or not, a Newline token leaves no bracket open, so the nesting counted from tokens, whatever it was, is the lexer's again |
| LexerInvariants.StepKeepsAgreement | crates/python_parser/src/lib.rs:525-547 | The nesting counted from tokens follows the lexer's own; they differ only between the error for brackets open at the end of the text and the newline that follows it; a Newline token means no open bracket or f-string |
| LexerInvariants.ReplayFollowsLexer | crates/python_parser/src/lib.rs:525-547 | Over any run the counted nesting equals the lexer's after every token that ends before the end of the text, and the reset at Newline never fires there |
| LexerClass.Lexer.constructor | crates/python_parser/src/lexer.rs:81-111 | The initial state, with a byte order mark skipped only at offset 0 |
| LexerClass.Lexer.NextToken | crates/python_parser/src/lexer.rs:146-156 | The class moves exactly to the state that the step function gives, and so do the methods it is made of (`LexToken`, `HandleIndentation`, `LexPunctuation`, `Bracket`, `LexNewline`, `ConsumeEnd`) and the two that move the lexer back (`Rewind`, `ReLexLogicalToken`): what the theorems say of the functions holds of the fields |
| LexerClass.Lexer.EatIndentation | crates/python_parser/src/lexer.rs:224-272 | The loop measures what the recursive reading measures, or fails with the same error |
| LexerClass.Lexer.SkipWhitespace | crates/python_parser/src/lexer.rs:323-354 | The loop stops where the recursive reading stops, or fails with the same error |
| LexerClass.Lexer.LexIdentifier | crates/python_parser/src/lexer.rs:606-695 | Word, string or f-string, with flags and value |
| LexerClass.Lexer.EatIdentifierTail | crates/python_parser/src/lexer.rs:639-641 | The loop with its ASCII flag gives the end and the flag of the recursive reading |
| LexerClass.Lexer.FindTripleEnd | crates/python_parser/src/lexer.rs:905-938 | Jumping between quotes and counting backslashes finds the same end, or the same failure, as one character at a time |
| LexerClass.Lexer.FindSingleEnd | crates/python_parser/src/lexer.rs:939-989 | The same for a literal that ends at a line break, including an escaped CRLF |
| LexerClass.Lexer.LexString | crates/python_parser/src/lexer.rs:886-999 | Token, value, flags and each of the three errors as the simple scanner has them |
| LexerClass.Lexer.EatMiddle | crates/python_parser/src/lexer.rs:766-872 | The lazily copied text of an f-string part is the eagerly built one; text is copied exactly when there is a doubled brace, and otherwise the value is the source slice |
| LexerClass.Lexer.LexFStringMiddleOrEnd | crates/python_parser/src/lexer.rs:750-883 | End, text, error or nothing, with the whole new state |
| LexerClass.Lexer.RadixRun | crates/python_parser/src/lexer.rs:1147-1161 | The number's text, borrowed until the first separator and owned from then on, holds the digits of the run in both forms |
| LexerClass.Lexer.LexNumber | crates/python_parser/src/lexer.rs:1002-1142 | Token and value, or error, as the number functions give them |
| LexerClass.Lexer.ReadCommand | crates/python_parser/src/lexer.rs:1176-1291 | The loop over an escape command gives the end and value of the recursive reading |
| Indentation.CompareIsAnOrder | crates/python_parser/src/lexer/indentation.rs:70-79 | Comparison in two measures is reflexive, antisymmetric and transitive where it succeeds |
| Indentation.PushKeepsIncreasing | crates/python_parser/src/lexer/indentation.rs:93-97 | Pushing a width that compares greater keeps the stack strictly increasing from the root |
| Indentation.TabGoesToTheNextStop | crates/python_parser/src/lexer/indentation.rs:59-68 | A tab advances to the next tab stop and counts as one character |
| Whitespace.JoinsOneLineBreak | crates/python_parser/src/lexer.rs:237-252 | A backslash joins lines exactly over one whole line break right behind it, be it LF, CR or CRLF, and is at the end of the text exactly when nothing follows |
| Whitespace.SkipsExactlyBlanks | crates/python_parser/src/lexer.rs:323-354 | What is passed over is blanks and joined line breaks, all of them and nothing else; it fails exactly at a backslash that joins nothing |
| Whitespace.MeasuresExactlyBlanks | crates/python_parser/src/lexer.rs:224-264 | The same for measuring an indentation |
| Whitespace.IndentIsTheFinalRun | crates/python_parser/src/lexer.rs:224-264 | The measured width is that of the spaces and tabs right before the first character that is no blank and joins no lines; form feeds and joined lines begin the count anew |
| IndentRule.MeetsSection | crates/python_parser/src/lexer.rs:224-264 | Where neither a backslash nor a form feed follows the whitespace that begins a line, the measured width is that of section 2.1.8; a form feed at the very start is ignored |
| IndentRule.MeetsSectionExactlyWhen | crates/python_parser/src/lexer.rs:237-254 | On text without form feeds it is the section's width exactly when no backslash follows, or when the whitespace after the last line break joined over has the same width |
| IndentRule.JoinedIndentIsLost | crates/python_parser/src/lexer.rs:237-254 | Four spaces, a backslash and a line break: the section indents by four, the lexer by nothing |
| IndentRule.JoinedLineHasNoIndent | crates/python_parser/src/lexer.rs:237-254 | So a file of that line begins without an Indent |
| IndentRule.MeasuresAreWorths | crates/python_parser/src/lexer/indentation.rs:50-68 | The two measures of a width are its columns with a tab worth two and with a tab worth one |
| IndentRule.FewWorthsDecide | crates/python_parser/src/lexer/indentation.rs:70-79 | Two indentations compare independently of the worth of a tab exactly when they do for worths up to one more than the longer is long |
| IndentRule.MixingRule | crates/python_parser/src/lexer/indentation.rs:70-79 | What compares independently of the worth of a tab, the lexer compares that way; it accepts nothing else exactly when agreement of worths one and two brings agreement of the few that decide |
| IndentRule.TabAgainstEightSpaces | crates/python_parser/src/lexer/indentation.rs:70-79 | It does accept more: a tab is less than eight spaces |
| IndentRule.AddingIsConsistent | crates/python_parser/src/lexer/indentation.rs:70-79 | Indentation that only adds to another is consistent and deeper, whatever mixture either is |
| StringScan.JumpIsSound | crates/python_parser/src/lexer.rs:917-928 | Over a stretch without stop characters only the parity of the backslashes at its end matters, in both forms of literal |
| StringScan.ClosedIsPaired | crates/python_parser/src/lexer.rs:902-998 | The text of a closed literal never ends inside an escape |
| StringScan.EndIsFirst | crates/python_parser/src/lexer.rs:902-998 | A literal is closed by the first quotes that no backslash escapes, or broken by the first such line break where it may hold none, an escaped CRLF counting as one; else nothing ends it |
| FStringScan.StopsWhereTextEnds | crates/python_parser/src/lexer.rs:781-863 | Literal text ends exactly at a closing quote, at a brace that is neither doubled nor ends a character name, and at a line break that ends a format specification; it fails exactly at the end of the text or a line break in a single-quoted f-string |
| FStringScan.TakesOnePiece | crates/python_parser/src/lexer.rs:781-863 | Where it goes on: what is taken as one piece, what it stands for, and where a character name begins and ends |
| FStrings.SpecificationsAreText | crates/python_parser/src/lexer/fstring.rs:69-112 | A format specification begins at the brackets of its field, turns the rest into text in which brackets open fields again, and ends where it began |
| FStringScan.ValueLength | crates/python_parser/src/lexer.rs:766-877 | The value is the slice less one brace for each doubled brace, and the slice itself exactly when there is none |
| NumberScan.RunIsSourceWithoutSeparators | crates/python_parser/src/lexer.rs:1147-1161 | A run's digits are its source without separators |
| NumberScan.RunIsMaximal | crates/python_parser/src/lexer.rs:1147-1161 | Every character of a run is a digit or a separator before a digit, and what follows is neither |
| NumberScan.DecimalTextIsSource | crates/python_parser/src/lexer.rs:1047-1090 | So is the text of a whole decimal number, through fraction and exponent |
| NumberScan.PrefixedIntegers | crates/python_parser/src/lexer.rs:1019-1045 | `0b`, `0o` and `0x` literals with digits of radix 2, 8 and 16, as long as can be: an Int exactly when a digit follows, with the positional value if it fits an `i64` and the token's text if not |
| NumberScan.DecimalIntegers | crates/python_parser/src/lexer.rs:1047-1142 | The same for decimal literals, and one is refused exactly when it begins with a zero and has a digit other than zero |
| NumberScan.DecimalShape | crates/python_parser/src/lexer.rs:1047-1098 | A decimal number is digits, then a point with digits, then an exponent, each if it comes and as long as can be; a separator right after the point is an error |
| NumberScan.DecimalKind | crates/python_parser/src/lexer.rs:1099-1142 | Complex exactly with an imaginary suffix, else Float exactly with a point or an exponent; refused if the floating-point parser refuses the text |
| Integers.ZeroValueMeansZeroDigits | crates/python_parser/src/lexer.rs:1119-1130 | The check that the value is 0 is the check that all digits are 0 |
| Words.KeywordToken | crates/python_parser/src/lexer.rs:631-694 | An ASCII word that spells a keyword is a keyword token exactly when the character after it is ASCII or the end of the text |
| Words.KeywordBeforeNonAscii | crates/python_parser/src/lexer.rs:1591-1600 | A source on which that condition fails |
| Words.PrefixLettersCombine | crates/python_parser/src/lexer.rs:697-728 | Two-letter prefixes are a raw letter with a bytes or f-string letter in either order, with the flags of both |
| Words.LongestOperator | crates/python_parser/src/lexer.rs:363-566 | The operator read is one of the language and the longest that the source begins with |
| TokenSourceSpec.DoBumpKeepsOrder | crates/python_parser/src/token_source.rs:127-137 | Going to the next token that is not trivia keeps all tokens in order and before the current one |
| TokenSourceSpec.BumpKeepsOrder | crates/python_parser/src/token_source.rs:119-123 | So does keeping the current token |
| KeptTokens.DoBumpKeepsTrivia | crates/python_parser/src/token_source.rs:127-137 | Going to the next token keeps every trivia token on the way, and no other, with kind, range and flags |
| KeptTokens.BumpKeepsToken | crates/python_parser/src/token_source.rs:119-123 | Bumping keeps the current token, under the kind given, and then that trivia |
| KeptTokens.KeepsEveryToken | crates/python_parser/src/token_source.rs:119-137 | After any number of bumps from the beginning, the tokens kept with the current one are exactly the tokens of the lexer's run |
| KeptTokens.WholeFileIsKept | crates/python_parser/src/token_source.rs:172-187 | At the end of the file they are the tokens of the whole lexing |
| TokenSourceSpec.PeekingIsPure | crates/python_parser/src/token_source.rs:96-114 | Peeking at one or two tokens changes nothing but the token mark, and finds the tokens that bumping would |
| TokenSourceSpec.RewindUndoesBumps | crates/python_parser/src/token_source.rs:151-167 | Rewinding to a checkpoint undoes any number of bumps: tokens, lexer and errors are those of before, but for the token mark |
| TokenSourceSpec.ReLexKeepsOrder | crates/python_parser/src/token_source.rs:67-88 | Re-lexing keeps the order; if it moves, the current token starts exactly at the line break given, and what is dropped is trivia or an empty token at that position |
| TokenSourceSpec.TrailingNewlineIsFirst | crates/python_parser/src/token_source.rs:68-77 | The line break to go back to is the first with only trivia behind it, and there is one if any line break is such |
| ReLexNesting.ReLexEndsTheLine | crates/python_parser/src/lexer.rs:1370-1417 | Outside f-strings: when a re-lex moves, what bracket it gives up, and that it gives the Newline of the logical line as soon as no bracket is left open |
| TokenSourceSpec.ServeKeepsOrder | crates/python_parser/src/token_source.rs:67-168 | One operation of any kind keeps the order and the checkpoints that can still be returned to |
| TokenSourceSpec.SessionsStayInOrder | crates/python_parser/src/token_source.rs:67-168 | So does any sequence of bumps, peeks, re-lexes, checkpoints and rewinds |
| TokenSourceSpec.StartsInOrder | crates/python_parser/src/token_source.rs:31-38 | A new token source is in order |
| SessionUndo.RewindUndoesRequests | crates/python_parser/src/token_source.rs:151-167 | Whatever is asked for after taking a checkpoint, re-lexes and inner rewinds included, for as long as it can still be returned to: returning to it gives back the token source, tokens and errors included, but for the token mark |
| SessionLevels.SessionsStayIncreasing | crates/python_parser/src/token_source.rs:67-168 | After any sequence of bumps, peeks, re-lexes, checkpoints and rewinds, the levels of the lexer and of every checkpoint are strictly increasing |
| SessionLevels.StartsIncreasing | crates/python_parser/src/token_source.rs:31-38 | A new token source begins with such levels |
| RewindOrder.RewindKeepsOrder | crates/python_parser/src/token_source.rs:159-167 | A rewind to any checkpoint keeps the order exactly when the last token kept ends by the start of the token returned to |
| RewindOrder.OutOfOrderRewinds | crates/python_parser/src/token_source.rs:151-167 | A source and three checkpoints, returned to out of order, for which it does not |
| TokenSourceClass.TokenSource.DoBump | crates/python_parser/src/token_source.rs:127-137 | The loop ends and pushes exactly the trivia before the next token |
| TokenSourceClass.TokenSource.Bump | crates/python_parser/src/token_source.rs:119-123 | The whole new state |
| TokenSourceClass.TokenSource.Peek | crates/python_parser/src/token_source.rs:96-101 | The kind of the next token, and the state as before but for the token mark |
| TokenSourceClass.TokenSource.Peek2 | crates/python_parser/src/token_source.rs:108-114 | The next two kinds, and the state as before but for the token mark |
| TokenSourceClass.TokenSource.ReLexLogicalToken | crates/python_parser/src/token_source.rs:67-88 | The whole new state, in order again |
| TokenSourceClass.TokenSource.TrailingNewline | crates/python_parser/src/token_source.rs:68-77 | The backward loop finds the first line break of the trailing trivia |
| TokenSourceClass.TokenSource.Finish | crates/python_parser/src/token_source.rs:172-187 | All tokens but the last, in order and in the text, with the lexer's errors |
| TokenList.TokenIterWithContext.Next | crates/python_parser/src/lib.rs:525-547 | Yields each token once, with the nesting that its predecessors and itself leave |
| TokenList.AfterSplits | crates/python_parser/src/lib.rs:446-469 | A panic exactly when the offset is strictly inside a token; else the tokens from the offset on and none before it, with any number of empty tokens there |
| TokenList.InRangePanics | crates/python_parser/src/lib.rs:408-434 | A panic exactly when one end is strictly inside a token |
| TokenList.InRangeSplits | crates/python_parser/src/lib.rs:408-434 | A contiguous slice of tokens inside the range; every token left out is wholly at or outside one end |
| LexedStrings.StringTokensArePaired | crates/python_parser/src/lexer.rs:886-999 | The value of a String token has no unpaired backslash |
| LexedStrings.LexedStringsNeverRunOut | crates/python_parser/src/string.rs:195-202 | Decoding a lexed string or bytes literal never ends in the middle of an escape |
| EscapeRoundTrip.EscapeTable | crates/python_parser/src/string.rs:195-233 | The escape table by its columns: each simple escape has its meaning, an escaped line break vanishes as a whole, and a backslash before any character that begins no escape stays |
| EscapeRoundTrip.HexEscapes | crates/python_parser/src/string.rs:111-140 | Two digits after `x`, four after `u` and eight after `U` are the character they denote, with surrogates replaced and numbers beyond Unicode refused; fewer are refused where they break off |
| EscapeRoundTrip.NameEscapes | crates/python_parser/src/string.rs:161-192 | A named character is its name in braces, and each of the three errors has its place |
| EscapeRoundTrip.WritingRoundTrips | crates/python_parser/src/string.rs:111-233 | A text written character by character in any mixture of forms (itself, letter, octal, `x`, `u`, `U`) decodes to itself |
| EscapeRoundTrip.UnknownEscapesAreText | crates/python_parser/src/string.rs:222-232 | A text whose every backslash comes before a character that begins no escape is its own value |
| EscapeRoundTrip.JoinedLinesVanish | crates/python_parser/src/string.rs:224-229 | An escaped line break vanishes as a whole |
| EscapeRoundTrip.BytesAreReduced | crates/python_parser/src/string.rs:351-383 | Bytes hold the low eight bits of each character |
| Decoder.OctalFits | crates/python_parser/src/string.rs:142-159 | Up to three octal digits denote at most 511 |
| Decoder.EscapeKeepsPairing | crates/python_parser/src/string.rs:351-383 | After each escape the rest of the text is paired exactly when it was before: the invariant at every loop head |
| Decoder.PairedNeverRunsOut | crates/python_parser/src/string.rs:195-202 | A paired text never gives the error for a text that ends inside an escape |
| Decoder.UnpairedNeverDecodes | crates/python_parser/src/string.rs:195-202 | An unpaired text never decodes |
| Decoder.RunsOutExactlyWhen | crates/python_parser/src/string.rs:195-202 | Decoding gives the error for a text that ends inside an escape exactly when the text has an unpaired backslash and one more backslash would make it decode |
| Decoder.FStringNeverRunsOut | crates/python_parser/src/string.rs:289-302 | An f-string part never gives that error |
| Decoder.FStringDecodesAlike | crates/python_parser/src/string.rs:235-319 | On paired text an f-string part has the value of the same plain string, or its error moved by the number of braces read before it |
| Decoder.RawFStringIsItself | crates/python_parser/src/string.rs:289-302 | A raw f-string part is its own value |
| Decoder.JumpDecodes | crates/python_parser/src/string.rs:404-434 | Jumping to the next backslash decodes what walking there decodes |
| StringParserClass.StringParser.ParseUnicodeLiteral | crates/python_parser/src/string.rs:111-140 | The sum of shifted digits fits 32 bits at every step and is the code point of the digits, with surrogates replaced and values beyond Unicode refused |
| StringParserClass.StringParser.ParseOctet | crates/python_parser/src/string.rs:142-159 | Takes one to three octal digits and returns the character they denote |
| StringParserClass.StringParser.ParseUnicodeName | crates/python_parser/src/string.rs:161-192 | The named character or each of the three errors, with its position |
| StringParserClass.StringParser.ParseEscapedChar | crates/python_parser/src/string.rs:195-233 | The escape table, with bytes literals keeping the Unicode escapes as text |
| StringParserClass.StringParser.ParseString | crates/python_parser/src/string.rs:388-442 | The search-driven loop equals the character-by-character decoder, errors and their positions included |
| StringParserClass.StringParser.ParseBytes | crates/python_parser/src/string.rs:321-386 | The same for bytes, each character reduced to one byte, after refusing non-ASCII text |
| StringParserClass.StringParser.ParseFStringMiddle | crates/python_parser/src/string.rs:235-319 | The same for f-string parts, with error positions moved by the braces before them |
| Utf8.OffsetsAreMonotone | crates/ruff_text_size/src/size.rs:13-25 | Byte offsets order positions as positions order themselves |
| Utf8.ByteSearchIsCharSearch | crates/python_parser/src/lexer.rs:907-909 | Searching bytes for ASCII characters finds what searching characters finds |
| Utf8.CountsCharacters | crates/ruff_source_file/src/line_index.rs:104-113 | Bytes that continue no character are as many as the characters |
| Lines.LinesPartition | crates/ruff_source_file/src/newlines.rs:80-111 | The lines concatenate to the text, each has one line break at its end unless it is the last, offsets are prefix lengths, and no CRLF is split |
| Lines.NextIsFirst | crates/ruff_source_file/src/newlines.rs:84-111 | Going forward takes the first remaining line |
| Lines.NextBackIsLast | crates/ruff_source_file/src/newlines.rs:118-155 | Going backward takes the last remaining line |
| Lines.InterleavingYieldsEachLineOnce | crates/ruff_source_file/src/newlines.rs:80-157 | However the ends are interleaved: front results, remaining lines and reversed back results are the lines |
| Lines.UniversalNewlineIterator.Next | crates/ruff_source_file/src/newlines.rs:84-111 | The class returns the first remaining line and keeps the rest |
| Lines.UniversalNewlineIterator.NextBack | crates/ruff_source_file/src/newlines.rs:118-155 | The class returns the last remaining line and keeps the rest |
| Lines.NewlineWithTrailingNewline.Next | crates/ruff_source_file/src/newlines.rs:187-194 | The lines in order, then an empty one if the text ends with a line break |
| LineIndex.FromSourceText | crates/ruff_source_file/src/line_index.rs:28-61 | The loop collects 0 and the offset after each line break, and whether all bytes are ASCII |
| LineIndex.StartsAreSorted | crates/ruff_source_file/src/line_index.rs:28-61 | The starts begin at 0, increase strictly, and are exactly 0 and the offsets after line breaks, a CRLF counting once |
| LineIndex.RowCountsBreaks | crates/ruff_source_file/src/line_index.rs:149-158 | The row found by binary search is the number of line breaks that end at or before the offset |
| LineIndex.ColumnCountsCharacters | crates/ruff_source_file/src/line_index.rs:95-124 | With or without the ASCII shortcut, the column is the number of characters since the line start, without a byte order mark |
| LineIndex.LineRangesTile | crates/ruff_source_file/src/line_index.rs:161-201 | The line ranges tile the text and end where `line_end` says |
| LineIndex.IndexMatchesIterator | crates/ruff_source_file/src/newlines.rs:161-194 | On any text but the empty one, the index lists the starts of the lines that the iterator yields |
| Locator.FullLineEndAgrees | crates/ruff_source_file/src/locator.rs:115-122 | Scanning forward for the line end agrees with the index at every offset |
| Locator.LineStartAgrees | crates/ruff_source_file/src/locator.rs:74-93 | Scanning backward for the line start agrees with the index exactly off the middle of a CRLF and off a first line with a byte order mark |
| Locator.LineEndsDifferByBreak | crates/ruff_source_file/src/locator.rs:142-149 | Between the two line ends lies exactly the line break |
| Resolver.ResolveModuleDescriptor | crates/ruff_python_resolver/src/resolver.rs:16-203 | The loop over the parts computes the recursive walk |
| Resolver.ResolutionIsSound | crates/ruff_python_resolver/src/resolver.rs:31-203 | For a name with parts: at most one entry a part, in order, each empty or an existing file of that part; found without partial results means every part has one; neither found nor partly resolved means none; without stubs no entry is a stub |
| ResolverEntries.EntriesArePreferred | crates/ruff_python_resolver/src/resolver.rs:31-203 | Each part in turn has the entry that comes first in the order of preference, up to the first part without one or that is no directory; and what the flags, the type information and the implicit imports of the result are |
| ResolverEntries.StubsComeFirst | crates/ruff_python_resolver/src/resolver.rs:88-143 | With stubs allowed an existing stub is preferred to a source |
| Resolver.ExclusiveUnlessPartial | crates/ruff_python_resolver/src/resolver.rs:167-177 | Found and partly resolved exclude each other on every file system exactly when partial results are not asked for |
| Resolver.BothAtOnce | crates/ruff_python_resolver/src/resolver.rs:167-177 | A file system and a name for which both hold |
| ImportChoice.PickIsMinimal | crates/ruff_python_resolver/src/resolver.rs:480-593 | The better of two candidates is one of them, with its first file as high up as either's, found exactly when one at that depth is |
| ImportChoice.BestIsMinimal | crates/ruff_python_resolver/src/resolver.rs:329-373 | So is the best of any number of candidates taken in order |
| ImportPreference.FoundPreference | crates/ruff_python_resolver/src/resolver.rs:505-570 | Between two found modules at one depth: the imported names and `__init__` files of namespace packages decide first, then type information, then a stub before a source, then the order |
| ImportPreference.BestIsPreferred | crates/ruff_python_resolver/src/resolver.rs:329-373 | Where names decide nothing, a found result is the first candidate found at its depth, or the first stub after it that has type information if the first has |
| ImportPreference.SourceMeansNoStub | crates/ruff_python_resolver/src/resolver.rs:555-561 | So a result that is no stub and has no type information means that no candidate found at its depth is a stub |
| ImportPreference.StubSearchIsPreferred | crates/ruff_python_resolver/src/resolver.rs:386-420 | The same for a whole search for stubs, third-party typeshed included |
| ImportPreference.PlacesInOrder | crates/ruff_python_resolver/src/resolver.rs:312-373 | The candidates are those of the root, the extra paths and the search paths, in this order, the last with a look for type information |
| ImportPreference.PackagedStubsFirst | crates/ruff_python_resolver/src/resolver.rs:210-253 | Packaged stubs are used exactly when they are asked for and allowed, their directory exists, and it is more than a namespace package or has the module |
| ImportPreference.TypeshedIsFirst | crates/ruff_python_resolver/src/resolver.rs:426-476 | A typeshed has the module in the first of its directories that exists and has it |
| ImportPreference.TypeshedIsPlain | crates/ruff_python_resolver/src/resolver.rs:426-476 | And never as a stub package or native library |
| ImportPreference.TypedLibrarySkipsTypeshed | crates/ruff_python_resolver/src/resolver.rs:375-385 | A completely resolved library with type information is not looked up in typeshed |
| ImportPreference.StdlibIsAsked | crates/ruff_python_resolver/src/resolver.rs:386-403 | In every other case the standard library's typeshed decides if it has the module |
| ImportChoice.LengthNeverDecides | crates/ruff_python_resolver/src/resolver.rs:565-568 | The tie-break by path length never fires |
| ImportChoice.AbsoluteIsCandidate | crates/ruff_python_resolver/src/resolver.rs:210-253 | Every place's result, packaged stubs included, is such a candidate |
| ImportChoice.ResolveBestAbsoluteImport | crates/ruff_python_resolver/src/resolver.rs:260-420 | The loops over extra paths and search paths compute the fold, with the stub directory and typeshed around it |
| ImportChoice.FindTypeshedPath | crates/ruff_python_resolver/src/resolver.rs:426-476 | The loop returns the first stub directory that has the module |
| ImportChoice.SourceSearchIsMinimal | crates/ruff_python_resolver/src/resolver.rs:260-420 | Looking for sources, the search returns a place's result with the highest first file of all, found exactly when one at that depth is |
| ImportChoice.StubSearchIsMinimal | crates/ruff_python_resolver/src/resolver.rs:260-420 | Looking for stubs: a configured stub directory decides alone, else the standard library's typeshed if it has the module and is asked, else the result is a candidate with the highest first file of all, third-party typeshed included, found exactly when one at that depth is |
| ImportChoice.StubDirectoryDecides | crates/ruff_python_resolver/src/resolver.rs:270-311 | With a stub directory there is a result exactly when the module is found in it and, as a namespace package, has the imported names |
| Names.SegmentsVec.FromSlice | crates/python_ast/src/name.rs:564-570 | Holds the slice; on the heap exactly when it does not fit |
| Names.SegmentsVec.Push | crates/python_ast/src/name.rs:585-597 | Appends one segment; spills exactly at the ninth |
| Names.SegmentsVec.Pop | crates/python_ast/src/name.rs:602-608 | Removes and returns the last segment |
| Names.SegmentsVec.ExtendFromSlice | crates/python_ast/src/name.rs:610-620 | Appends the slice; spills exactly when the segments no longer fit |
| Names.SegmentsVec.Extend | crates/python_ast/src/name.rs:785-819 | Appends an iterator's items and spills exactly when they no longer fit, whatever lower bound it promises |
| Names.FromExpr | crates/python_ast/src/name.rs:344-493 | Eight unrolled levels and a loop give the segments of the simple recursion, at every depth |
| Names.CollectIsDotted | crates/python_ast/src/call_path.rs:9-130 | So do eight unrolled levels and a recursive call |
| Names.DottedReadsAsWritten | crates/python_ast/src/name.rs:344-493 | The segments joined by dots are the expression as it is written |
| Names.ConstructorsAgree | crates/python_ast/src/call_path.rs:197-205 | The two constructors from dotted text agree |
| Names.SegmentsOfDotted | crates/python_ast/src/name.rs:191-200 | A name without a dot is a builtin; any other is its pieces between dots, in order |
| Names.DisplayQualifiedName | crates/python_ast/src/name.rs:251-289 | The display loops write the shown form |
| Names.FormatCallPath | crates/python_ast/src/call_path.rs:138-173 | So does the formatter, with its conditions in another order |
| Names.ShowUndoesFromDotted | crates/python_ast/src/name.rs:191-200 | Showing a name gives back its dotted text exactly when that does not begin with a dot |
| Names.RelativeIsDotsAndRest | crates/python_ast/src/name.rs:251-289 | A relative name is shown as its dots right before the rest |

## Left out

- The grammar parser, the language server, the semantic model and the syntax-tree visitors.
- Termination of the whole parser across repeated re-lexing: it depends on the grammar parser.
- LexerInvariants.StepKeepsInvariant: the parts about brackets and f-strings are not kept by every re-lex (`ReLexNesting` says by which, with a source for which they are lost); order, termination, indentation and the nesting after a Newline are proved for those states too.
- TokenSourceSpec.SessionsStayInOrder: returning to a checkpoint gives up those taken after it, because otherwise the statement is false; see `RewindOrder`.
- Decoder.RunsOutExactlyWhen: assumes, as its companions do, that no Unicode character name contains a backslash.
- Resolver.ResolutionIsSound: a name without parts, for which one entry is pushed, is not covered. A part that is empty, which leaves its directory as it is, is; a part with a path separator or `..` in it is read as one name.
- The 32-bit widths of offsets and columns; the invariant bounds nesting by the position.
- Relative imports, the search through parent directories, search-path discovery and reading `py.typed` files.
- NFKC normalisation, XID tables, the name table and float parsing are parameters, not models.
- What an IPython escape command means; its end and value are as the program computes them.
- Comparison, hashing and conversion of token kinds, flags and integers.
