# A verified model of the C shell core, the configuration parser and the sparse copier

This project models, in Dafny, the algorithmic core of three programs of the repository and
proves what they are for. Nothing here executes the original programs; everything below is
a theorem about the model, for all inputs.

* **Paths** (`Paths.dfy`): the C shell's in-place path rewriting on a character buffer. The
  loops of `dcanon` are proved to leave exactly the text that a stack of components
  describes, that text names the same directory, is canonical except for one stated family
  of paths, and two paths are rewritten to the same text exactly when they lead to the same
  directory. `dnormalize` followed by `dgoto` agrees with rewriting directly.
* **Directory stack** (`DirStack.dfy`): the doubly linked ring behind `cd`, `pushd`, `popd`,
  on real objects with `next` and `prev`, refined to a list of names; any number of pushes
  followed by as many pops is the identity exactly if one can go back, `cd +n` is `pushd +n`
  and then `popd` of what was left, and each command succeeds under an exact condition.
* **Braces** (`Braces.dfy`, `BraceMeaning.dfy`): the worklist of `expbrace` over a growing,
  shifting array computes the recursive expansion and terminates; on written patterns that
  expansion is the cartesian product of the alternatives, under an exact condition.
* **Pattern matching** (`Matching.dfy`): `pmatch` and `Gmatch` against the language of a
  pattern, with the patterns on which they go wrong told by the pattern alone.
* **Parser** (`LrMachine.dfy`, `LrGrammar.dfy`, `LrComplete.dfy`, `LrDriver.dfy`,
  `ConfigTables.dfy`, `ConfigParse.dfy`, `ConfigGrammar.dfy`, `ConfigComplete.dfy`): the yacc
  driver as a state machine; a finite certificate on the tables makes every step safe; the
  real tables are certified; the driver on growing arrays refines the machine. `yyparse` with
  these tables ends on every input, whatever the actions do, never has more than 15 states on
  its stack, and recognises exactly its grammar: it accepts a token list without an error if
  and only if the rules derive it.
* **Configuration files** (`ConfigFiles.dfy`, `ConfigLexer.dfy`, `ConfigQuotes.dfy`,
  `ConfigTokens.dfy`, `ConfigKeywords.dfy`): the stack of included files with its characters
  and error counts, and the scanner on top of it. Which token each text is read as is proved
  text by text: keywords by the names of their tokens, all 64-bit numbers, words, quoted
  strings, comments, and macros as the text they stand for.
* **A whole parse** (`ConfigRun.dfy`, `ConfigVerdicts.dfy`, `ConfigSuccess.dfy`,
  `ConfigMacros.dfy`, `ConfigDriver.dfy`): tables, scanner, includes and error reports
  together, as `parse_config` runs them. Over every run no counted error is lost; on 7-bit
  text without NULs the verdict is right, and a good verdict means that the tokens, through
  all included files, are a sentence of the grammar, but for one failure that is not
  reported. If no action fails, it is good exactly if they are a sentence and no error was
  counted. Other characters make the verdict wrong.
* **Shell input** (`ShellInput.dfy`): the two buffering schemes of `bgetc`, including the gaps
  that terminal lines leave, and that loops re-read what they read before.
* **Expressions** (`Expr.dfy`, `ExprArith.dfy`, `ExprMeaning.dfy`): `exp0` to `exp6`, with
  commands threading a world; what each operator denotes is said on the integers and bits,
  apart from how it is computed; writing any expression with the parentheses it needs and
  evaluating it gives the 32-bit value that it denotes.
* **Substitution** (`Subst.dfy`): the history modifiers, with the termination of `:a` for
  every word and both sides, and what each word of a list becomes under each flag.
* **Command hash** (`CommandHash.dfy`), **completion** (`Completion.dfy`), **environment**
  (`Environ.dfy`), **copy loop** (`SparseCopy.dfy`) and **numbers** (`Numbers.dfy`);
  `Bytes.dfy` is shared by the input and copy models.

Where a property one would expect is false of the code, the code is kept, the exact
condition is proved and a concrete input is given: `Paths.CanonIsCanonical` and
`Paths.DotAtTheRoot`, `BraceMeaning.ExpandIsProduct` and `BraceMeaning.TwoEmptyGroups`,
`Matching.AgreesExactly` with `Matching.StarStar` and `Matching.NegatedAtEnd`,
`ConfigVerdicts.AlphabetExactly` and `ConfigVerdicts.BadHidesErrors`,
`CommandHash.HashExactly` and `CommandHash.UnreadableDirectory`, `Environ.EndsExactly` and
`Environ.NeverEnds`, `Environ.SetenvExactly` and `Environ.NameWithEquals`. What a good
verdict of `parse_config` leaves open in `ConfigRun.GoodVerdict` does happen in
`ConfigVerdicts.SilentFailure`.

Files, directories, the kernel's choice of how much a `read` returns, failing system calls,
commands and pattern matching on environment names are parameters or arbitrary choices.

## Model

| member | source | states |
|---|---|---|
| Paths.Dcanon | usr/src/bin/csh/dir.c:637-837 | rewriting the buffer in place from p leaves the component-stack normal form of the path; every pass shortens what is left from p |
| Paths.Flush | usr/src/bin/csh/dir.c:638-644 | a run of slashes is closed up in place to the first of them |
| Paths.DropDot | usr/src/bin/csh/dir.c:658-666 | a "." component is removed in place, except as the last one directly over the root |
| Paths.DropParent | usr/src/bin/csh/dir.c:667-758 | a ".." component is removed together with the component before it, and alone at the root |
| Paths.CanonKeepsDirectory | usr/src/bin/csh/dir.c:637-837 | the rewritten path leads to the directory that the original path leads to, for every path |
| Paths.CanonIsCanonical | usr/src/bin/csh/dir.c:637-837 | the result has no empty, "." or ".." component if and only if the path does not end in "." over the root |
| Paths.CanonDecidesDirectory | usr/src/bin/csh/dir.c:637-837 | outside that family, two paths are rewritten to the same text if and only if they lead to the same directory |
| Paths.CanonIdempotent | usr/src/bin/csh/dir.c:637-837 | rewriting a rewritten path changes nothing |
| Paths.PrefixAlreadyRead | usr/src/bin/csh/dir.c:637-639 | starting behind a canonical prefix gives what starting at the beginning gives |
| Paths.WalksOn | usr/src/bin/csh/dir.c:637-837 | a path is walked from left to right: the directory of two texts one behind the other is that of the second from that of the first |
| Paths.DownAndUp | usr/src/bin/csh/dir.c:667-758 | a name leads one down, ".." behind it leads back, and at the root ".." stays |
| Paths.StaysThere | usr/src/bin/csh/dir.c:638-666 | "." and an empty component stay where they are |
| Paths.CountDots | usr/src/bin/csh/dir.c:276-289 | the leading "." and ".." components of a path are passed over and the ".." counted |
| Paths.TakeOff | usr/src/bin/csh/dir.c:290-296 | as many components are taken off the current directory, stopping at the root |
| Paths.Dnormalize | usr/src/bin/csh/dir.c:253-314 | the result is the shortened current directory joined with the rest of the path |
| Paths.Dgoto | usr/src/bin/csh/dir.c:365-398 | the path, behind the current directory if relative, in normal form |
| Paths.SkipDotsDirectory | usr/src/bin/csh/dir.c:276-296 | counting the leading dots and going up leads where resolving them one by one leads |
| Paths.NormalizeThenGoto | usr/src/bin/csh/dir.c:253-398 | dnormalize then dgoto reaches the directory of the path itself, and gives the same text if and only if the path is not all dots ending in "." over the root |
| Paths.DotAtTheRoot | usr/src/bin/csh/dir.c:658-666 | the exception happens: "/." stays as it is and is not canonical |
| DirStack.Ring.constructor | usr/src/bin/csh/dir.c:119-125 | the initial ring is well formed and holds one directory |
| DirStack.Ring.DoChngd | usr/src/bin/csh/dir.c:319-363 | cd and cd +n keep the ring well formed and do to the names what the list function says, which ChangePosition and ChangeIsPushPop pin; errors change nothing |
| DirStack.Ring.DoPushd | usr/src/bin/csh/dir.c:466-514 | pushd, pushd dir and pushd +n keep the ring well formed and swap, push or rotate; errors change nothing |
| DirStack.Ring.DoPopd | usr/src/bin/csh/dir.c:548-583 | popd and popd +n keep the ring well formed and drop the first or the n-th name; errors change nothing |
| DirStack.Ring.FindDir | usr/src/bin/csh/dir.c:519-542 | +n finds the n-th directory from the current one, or the error the source reports |
| DirStack.Ring.Unlink | usr/src/bin/csh/dir.c:346-347 | unlinking a directory leaves the other links inverse to each other |
| DirStack.PushThenPop | usr/src/bin/csh/dir.c:466-583 | pushd dir then popd gives back the stack |
| DirStack.PushesThenPops | usr/src/bin/csh/dir.c:466-583 | any number of pushd dir followed by as many popd gives back the stack if and only if one can change to its first directory and to every pushed one but the last; otherwise more directories are left |
| DirStack.RotateBack | usr/src/bin/csh/dir.c:495-513 | rotations keep all names and are undone by the complementary rotation |
| DirStack.SwapTwice | usr/src/bin/csh/dir.c:474-489 | pushd without argument twice gives back the stack |
| DirStack.PushPosition | usr/src/bin/csh/dir.c:491-514 | pushd +n brings the n-th name to the front and loses none, and pushd by the rest of the way round undoes it |
| DirStack.PopPosition | usr/src/bin/csh/dir.c:556-583 | popd +n takes out the n-th name and leaves the others as they were |
| DirStack.ChangePosition | usr/src/bin/csh/dir.c:335-352 | cd +n loses the first name alone, and the others stay in the same cyclic order with the n-th in front |
| DirStack.ChangeIsPushPop | usr/src/bin/csh/dir.c:319-583 | cd +n is pushd +n and then popd of the directory that was left |
| DirStack.ChangeIsPushDrop | usr/src/bin/csh/dir.c:319-583 | cd to a directory is pushd to it and then popd of the one below; cd alone is cd to the home directory |
| DirStack.SwapThenDrop | usr/src/bin/csh/dir.c:466-583 | pushd alone and then dropping the second name is popd |
| DirStack.PositionOf | usr/src/bin/csh/dir.c:519-542 | every position has a +n word |
| DirStack.WhenOk | usr/src/bin/csh/dir.c:319-583 | each command succeeds if and only if its position is there and one can change to its directory |
| DirStack.WhenErr | usr/src/bin/csh/dir.c:319-583 | and otherwise reports the error for a lone directory, a stack that is not deep enough, no home, or a directory one cannot change to |
| Braces.FindClose | usr/src/bin/csh/glob.c:133-155 | the matching brace, or the missing brace or bracket the source reports |
| Braces.MissingErrors | usr/src/bin/csh/glob.c:133-155 | a group without a closing brace reports the brace, and one with an open bracket before any other brace reports the bracket |
| Braces.CutGroup | usr/src/bin/csh/glob.c:157-201 | one word for each alternative between commas of the outermost group, with the text around it |
| Braces.GlobBrace | usr/src/bin/csh/glob.c:116-204 | one brace group of a word expanded, or the error |
| Braces.BracedFewer | usr/src/bin/csh/glob.c:116-204 | every word produced has strictly fewer opening braces than the word it came from |
| Braces.FewerRounds | usr/src/bin/csh/glob.c:207-269 | putting the expansion of a word in its place lowers the rounds the worklist has left |
| Braces.Splice | usr/src/bin/csh/glob.c:253-261 | shifting the array up and filling the gap replaces one word by several in place |
| Braces.WorklistStep | usr/src/bin/csh/glob.c:207-269 | a step of the worklist keeps the recursive expansion of the whole list |
| Braces.ExpBrace | usr/src/bin/csh/glob.c:207-269 | the worklist over the growing array ends, and holds in order the recursive expansion of every word, or reports its first error |
| Braces.ExpandLeavesNone | usr/src/bin/csh/glob.c:222-226 | no word of the result still has a group to expand |
| BraceMeaning.ExpandIsProduct | usr/src/bin/csh/glob.c:116-269 | a written pattern of text, classes and nested groups, empty ones included, expands to the cartesian product of its alternatives in order if and only if no choice of alternatives brings the word down to {}; otherwise {} is among the words |
| BraceMeaning.TwoEmptyGroups | usr/src/bin/csh/glob.c:223-225 | the exception happens: of two empty groups the second one is left |
| Matching.MatchClass | usr/src/bin/csh/glob.c:828-846 | the loop over a character class answers as its specification, errors included |
| Matching.ScanIsInClass | usr/src/bin/csh/glob.c:832-844 | a closed class holds a character if and only if one of its characters or ranges does |
| Matching.OpenClassError | usr/src/bin/csh/glob.c:832-846 | a class that is not closed is an error, whatever the string |
| Matching.OpenRange | usr/src/bin/csh/glob.c:832-846 | a pattern that ends in the dash of a class makes the code read past it, unless the character was found before |
| Matching.Pmatch | usr/src/bin/csh/glob.c:804-857 | the loop with recursion on * answers as its specification |
| Matching.PMatchIsLang | usr/src/bin/csh/glob.c:804-857 | for every pattern with closed classes and no ^ or brace behind a star: the code says yes if and only if the string is in the language of the pattern, with ** at the end read as the source reads it, except that it reads past the terminator exactly when it comes to a negated class at the end of the string |
| Matching.NegatedAtEnd | usr/src/bin/csh/glob.c:828-849 | that happens: a pattern that starts with a negated class makes the code read past the terminator of the empty string |
| Matching.OverrunExactly | usr/src/bin/csh/glob.c:804-857 | some string makes the code read past its terminator if and only if a negated class that is not directly behind a star can be reached through classes that have a member |
| Matching.AgreesExactly | usr/src/bin/csh/glob.c:804-857 | the code agrees with the language on every string if and only if the pattern cannot read past a terminator and does not end in two stars, unless it has a class without a member and so matches nothing |
| Matching.StarStar | usr/src/bin/csh/glob.c:821-827 | the plainest exception: ** does not match the empty string |
| Matching.Gmatch | usr/src/bin/csh/glob.c:780-802 | the loop over the brace expansions answers as its specification |
| Matching.GMatchIsLang | usr/src/bin/csh/glob.c:780-802 | a braced pattern matches if and only if the string is in the language of one of its expansions, and ^ negates that; it reads past the terminator if and only if it does so for some expansion |
| LrMachine.Step | ifconfigctl/parse.c:1319-1420 | with certified tables a step keeps the stacks of states and values equally deep, chained by the certificate and within YYMAXDEPTH |
| LrMachine.Run | ifconfigctl/parse.c:1319-1855 | so does any run, on any tokens and action results |
| LrMachine.ReductionFits | ifconfigctl/parse.c:1808-1812 | a reduction never pops the bottom and lands on a state that may lie there |
| LrMachine.ReduceKeeps | ifconfigctl/parse.c:1421-1855 | a reduction, or the recovery an action starts, keeps the invariant |
| LrMachine.RecoverKeeps | ifconfigctl/parse.c:1368-1420 | error recovery keeps the invariant and stops at the bottom |
| LrDriver.Parser.GrowStack | ifconfigctl/parse.c:1232-1281 | the arrays grow with their contents kept, and refuse exactly at YYMAXDEPTH |
| LrDriver.Parser.Discard | ifconfigctl/parse.c:1374-1403 | the search down the arrays is the machine's search for a state that shifts the error token |
| LrDriver.Parser.Step | ifconfigctl/parse.c:1319-1855 | the driver on growing arrays does exactly a step of the machine, and overflows only at full depth |
| ConfigTables.TablesCertified | ifconfigctl/parse.c:138-313 | the tables of the configuration grammar pass the certificate |
| ConfigParse.UnwindFinds | ifconfigctl/parse.c:1374-1403 | above the bottom the search for a state that shifts the error token succeeds |
| ConfigParse.StepGoes | ifconfigctl/parse.c:1319-1855 | every step consumes a token, starts a recovery or lowers what is left to reduce, or ends the parse at the end of the input or at full depth |
| ConfigParse.Parse | ifconfigctl/parse.c:1289-1876 | yyparse with these tables ends on every finite token stream, whatever each action of each step does, only at the end of the input, and with no more than 15 states on its stack |
| ConfigParse.NeverFull | ifconfigctl/parse.c:1232-1281 | with these tables no step finds the stack full: it never holds more than 15 states |
| ConfigParse.IncludeBeforeLookahead | ifconfigctl/parse.c:1319-1855 | in every step, the state in which an include is reduced is entered only with no token read ahead |
| ConfigParse.IncludesAtOnce | ifconfigctl/parse.c:1319-1855 | in every run from the start, on any tokens with any actions, the include rule is reduced only with no token read ahead |
| LrGrammar.StepBuilds | ifconfigctl/parse.c:1319-1855 | if every state spells the right-hand sides of the rules it reduces, a step without an error keeps the tokens read derived by the rules from the symbols on the stack |
| LrGrammar.AcceptedDerives | ifconfigctl/parse.c:1808-1855 | and a step that accepts has read a sentence derived from the start symbol |
| ConfigGrammar.TablesSpelled | ifconfigctl/parse.c:341-411 | the tables of the configuration grammar, with the symbol that each state is entered by, spell its rules |
| ConfigGrammar.StepReads | ifconfigctl/parse.c:1319-1855 | every step of yyparse keeps the tokens read derived by the configuration grammar while there is no error |
| ConfigGrammar.ParseDerives | ifconfigctl/parse.c:1289-1876 | a token list that yyparse accepts without an error is a sentence of the configuration grammar, whatever the actions do |
| LrComplete.SentenceRuns | ifconfigctl/parse.c:1319-1855 | if from every state in which a rule may start the tables walk along its right-hand side to its reduction, every derived sentence is accepted without an error, unless the stack is full |
| ConfigComplete.TablesGuided | ifconfigctl/parse.c:138-411 | the tables of the configuration grammar walk along every rule from every state in which it may start |
| ConfigComplete.ParseAccepts | ifconfigctl/parse.c:1289-1876 | yyparse accepts every sentence of the configuration grammar without an error if no action fails |
| ConfigComplete.RecognisesExactly | ifconfigctl/parse.c:1289-1876 | a token list is accepted without an error if and only if it is a sentence of the grammar |
| ConfigFiles.ConfigInput.Popfile | ifconfigctl/parse.c:817-831 | the errors of the file that is left are added to the one that included it |
| ConfigFiles.ConfigInput.Lgetc | ifconfigctl/parse.c:530-576 | the next character from macro text, pushback or files, passing over the ends of included files |
| ConfigFiles.ConfigInput.Lungetc | ifconfigctl/parse.c:578-592 | a character goes back to macro text or to the bounded pushback; a 7-bit one with room is the next one read, with all else as it was |
| ConfigFiles.ReadBack | ifconfigctl/parse.c:530-592 | reading undoes putting back a 7-bit character |
| ConfigFiles.ReadBackSigned | ifconfigctl/parse.c:578-592 | an 8-bit character that is put back comes back negative, because the pushback holds signed chars |
| ConfigFiles.ConfigInput.YyError | ifconfigctl/parse.c:446-460 | one more error in the current file |
| ConfigFiles.ConfigInput.IncludeFile | ifconfigctl/parse.c:1769-1783 | a new file on the stack with a newline pushed back, or an error counted where the include stands |
| ConfigFiles.PoppedConserves | ifconfigctl/parse.c:817-831 | leaving a file conserves the errors over the open files |
| ConfigFiles.ReadEnds | ifconfigctl/parse.c:530-576 | on 7-bit text without NULs a read gives a character, or the end only with the top file alone open |
| ConfigFiles.ReadsInOrder | ifconfigctl/parse.c:556-576 | outside quotes characters come in the order of the current file followed by the files that include it, with lines joined at a backslash and other backslashes taken out, and the end comes only behind all of them |
| ConfigFiles.SaidPlain | ifconfigctl/parse.c:556-565 | a file without a backslash is read as it stands |
| ConfigFiles.ReadConserves | ifconfigctl/parse.c:530-576 | a read conserves the errors over the open files, but for the one it counts when a file ends in a string |
| ConfigLexer.Findeol | ifconfigctl/parse.c:594-615 | the macro is left and the rest of the line skipped |
| ConfigLexer.FillName | ifconfigctl/parse.c:635-650 | the name of a macro in the bounded buffer, with what ends it put back |
| ConfigLexer.FillQuoted | ifconfigctl/parse.c:665-690 | the loop over a quoted string with its escapes, joined lines and bounded buffer ends and is its specification |
| ConfigLexer.NumberToken | ifconfigctl/parse.c:700-731 | a number of 64 bits, an error beyond that, or a word or minus sign with the digits put back |
| ConfigLexer.WordToken | ifconfigctl/parse.c:739-753 | a word, or the keyword it is |
| ConfigLexer.Yylex | ifconfigctl/parse.c:617-761 | the scanner on its 4096 byte buffer ends and gives the token, its value and the input left that the specification says, for every state of the input |
| ConfigTokens.CharacterClasses | ifconfigctl/parse.c:697-737 | the characters in words, at their start, behind numbers, in macro names and between tokens |
| ConfigTokens.ClassesFit | ifconfigctl/parse.c:697-737 | whatever ends a number ends a word, and whatever starts a word may stand in one |
| ConfigTokens.WordRead | ifconfigctl/parse.c:739-753 | a text of word characters is read as the keyword it spells, and else as the string it is, with what ends it put back, from files and macros alike |
| ConfigKeywords.KeywordRead | ifconfigctl/parse.c:468-515 | every keyword with a character behind it that cannot be in a word is read as its token |
| ConfigKeywords.KeywordsNamed | ifconfigctl/parse.c:321-515 | the token of each keyword has the keyword in capitals as its name in the table of token names |
| ConfigKeywords.Ascending | ifconfigctl/parse.c:470-508 | the table of keywords is strictly ascending in the order of strcmp |
| ConfigKeywords.Strcmp | ifconfigctl/parse.c:462-466 | the comparison tells equal words, and which of two words is first |
| ConfigKeywords.Bsearch | ifconfigctl/parse.c:510-518 | the binary search finds what a search from the front finds |
| ConfigKeywords.LookupExactly | ifconfigctl/parse.c:468-518 | a keyword is found with its token, and a word that is none is a string |
| ConfigTokens.NumberRead | ifconfigctl/parse.c:697-721 | a number that may end where it does is read with its value, or is an error beyond 64 bits |
| ConfigTokens.DecimalRead | ifconfigctl/parse.c:700-721 | every 64-bit integer written in decimal is read as that number, and one beyond is an error |
| ConfigTokens.MixedRead | ifconfigctl/parse.c:722-753 | a word that begins with digits is read as a word: the digits are put back and read again |
| ConfigTokens.MinusRead | ifconfigctl/parse.c:700-731 | a minus sign without a digit behind it is a token by itself |
| ConfigTokens.AloneRead | ifconfigctl/parse.c:754-761 | every other character, a line end among them, is a token by itself |
| ConfigTokens.EndRead | ifconfigctl/parse.c:758-759 | the end of the input is the token 0 |
| ConfigTokens.BlankRead | ifconfigctl/parse.c:625-629 | a blank is passed over: the token is the one read behind it |
| ConfigTokens.CommentRead | ifconfigctl/parse.c:627-634 | a comment is read as the line end behind it |
| ConfigTokens.MacroExpands | ifconfigctl/parse.c:635-659 | a macro that is defined is read from then on, and one that is not is an error |
| ConfigTokens.MacroIsText | ifconfigctl/parse.c:635-761 | a macro whose text is a word or a number is read with the token and value that its text has in its place |
| ConfigLexer.LexFollows | ifconfigctl/parse.c:446-761 | a token adds to the open files exactly the errors counted in reading it; on 7-bit text without NULs it is positive, or the end with only the top file open, and text stays 7-bit and without NULs |
| ConfigQuotes.ReadsWritten | ifconfigctl/parse.c:661-695 | a text without a line end that fits the buffer, written in quotes with a backslash before each quote, is read back, whatever follows and whatever files are open |
| ConfigQuotes.QuotesExactly | ifconfigctl/parse.c:661-695 | a text that fits the buffer can be written in quotes, in some way, if and only if it has no line end |
| ConfigRun.NoErrorLost | ifconfigctl/parse.c:446-1876 | after any number of steps of any parse, with any files, includes, macros and failing actions, the errors in the open files are exactly those counted |
| ConfigRun.VerdictIsRight | ifconfigctl/parse.c:833-877 | on 7-bit text without NULs a parse that ends fails if and only if an error was counted in some file |
| ConfigRun.GoodVerdict | ifconfigctl/parse.c:833-877 | if parse_config succeeds on such text, the tokens read through all included files are a sentence of the grammar, unless an action has failed without a report and the input ended on its line |
| ConfigSuccess.ParseIsRun | ifconfigctl/parse.c:1289-1876 | if no action fails, a whole parse ends as the parser alone does on the tokens that were read |
| ConfigSuccess.AcceptsExactly | ifconfigctl/parse.c:446-1876 | if no action fails, a parse that has ended was accepted without a syntax error if and only if the tokens read, through all included files, are a sentence |
| ConfigSuccess.SucceedsExactly | ifconfigctl/parse.c:833-877 | if no action fails, on 7-bit text without NULs parse_config succeeds if and only if the tokens are a sentence and no error was counted |
| ConfigSuccess.SmoothIf | ifconfigctl/parse.c:1421-1807 | an action fails only where the environment makes it fail or a file cannot be opened |
| ConfigMacros.LineDefines | ifconfigctl/parse.c:1785-1793 | a line that gives a name a text makes the macro stand for that text in all that follows, unless it was fixed on the command line, and counts no error |
| ConfigVerdicts.BadHidesErrors | ifconfigctl/parse.c:578-592 | a faulty line and then an include whose unquoted name has a NUL or an 8-bit character directly behind it: both errors of the first line are counted, the parse is accepted inside the included file, and parse_config succeeds |
| ConfigVerdicts.AlphabetExactly | ifconfigctl/parse.c:446-877 | every parse over files of 7-bit characters and some others gets the right verdict if and only if the others are 7-bit characters too and not NUL |
| ConfigVerdicts.SilentFailure | ifconfigctl/parse.c:1794-1803 | a schema that cannot be read, on a line without its end, aborts the parse and parse_config succeeds |
| ConfigDriver.ConfigParser.Advance | ifconfigctl/parse.c:1289-1876 | a pass of yyparse on its arrays, with yylex, includes, macros and reports, is a step of the specification |
| ConfigDriver.ParseConfig | ifconfigctl/parse.c:833-877 | parse_config fails if the file cannot be opened, and otherwise gives the verdict of the specification once the parse has ended |
| ShellInput.Seekable.constructor | usr/src/bin/csh/lex.c:1580-1593 | reading starts where the descriptor stands |
| ShellInput.Seekable.Bgetc | usr/src/bin/csh/lex.c:1405-1426 | the byte of the file at fseekp, or -1 exactly at or past its end, for any chunking of reads |
| ShellInput.Seekable.Serve | usr/src/bin/csh/lex.c:1405-1537 | any interleaving of reads and seeks answers as the file itself would |
| ShellInput.SeekReads | usr/src/bin/csh/lex.c:1405-1537 | whatever was read before, after a seek the reads give the file from that place on |
| ShellInput.Unseekable.Bgetc | usr/src/bin/csh/lex.c:1428-1501 | the next byte of what is still to be read, or -1 exactly at its end; nothing buffered changes, and what is added is what was read, up to skipped cells of terminal input |
| ShellInput.Unseekable.Ready | usr/src/bin/csh/lex.c:1428-1499 | the loop over blocks ends with a byte to read or at the end of the input, and loses nothing |
| ShellInput.Unseekable.Bfree | usr/src/bin/csh/lex.c:1503-1521 | dropping and rebasing blocks changes nothing still to be read, does nothing inside loops, and leaves at most one block behind |
| ShellInput.Unseekable.Bseek | usr/src/bin/csh/lex.c:1535-1537 | what was still to be read when the position was told is to be read again, however much was buffered since |
| ShellInput.Unseekable.Readc | usr/src/bin/csh/lex.c:1387-1391 | the next character that is not a NUL, or -1 if there is none |
| ShellInput.GrownFrom | usr/src/bin/csh/lex.c:1428-1501 | after any growth of the buffer the text from every old position is the same, up to NULs on a terminal |
| ShellInput.Unseekable.PassTwice | usr/src/bin/csh/lex.c:1428-1537 | reading, seeking back and reading again gives the same characters |
| ExprArith.ArithDenotes | usr/src/bin/csh/exp.c:129-388 | every operator on ints gives the value that it denotes on integers and bits, and fails exactly on a zero divisor of / and % |
| ExprArith.DenotesOnce | usr/src/bin/csh/exp.c:129-388 | an operator denotes at most one value of two operands |
| ExprArith.NoOverflow | usr/src/bin/csh/exp.c:337-388 | sums, differences and products are those of the integers wherever these are ints |
| ExprArith.WrapsAround | usr/src/bin/csh/exp.c:337-388 | and otherwise the ints that agree with them to 32 bits |
| ExprArith.MinusUndoesPlus | usr/src/bin/csh/exp.c:337-347 | subtracting what was added gives back the int, wrapped around or not |
| ExprArith.Compares | usr/src/bin/csh/exp.c:193-281 | exactly one of less, equal and greater holds, and the other three comparisons are their opposites |
| ExprArith.ShiftDoubles | usr/src/bin/csh/exp.c:283-309 | a shift to the left by one more place adds the result to itself |
| ExprArith.ShiftBack | usr/src/bin/csh/exp.c:283-309 | a shift to the right undoes one to the left that has lost nothing |
| ExprArith.ShiftCounts | usr/src/bin/csh/exp.c:283-309 | shift counts are taken modulo 32 |
| ExprArith.DivisionLaws | usr/src/bin/csh/exp.c:369-381 | quotient times divisor plus remainder is the dividend, with the remainder smaller than the divisor and of the dividend's sign, for every int but the one whose quotient is none |
| ExprArith.NotFlips | usr/src/bin/csh/exp.c:409-418 | ~ flips each of the 32 bits |
| Expr.Exp | usr/src/bin/csh/exp.c:81-565 | evaluation by precedence ends on every word list, yields ints up to the equality operators and words above them, and leaves no more words than it got |
| ExprMeaning.RestIsEnd | usr/src/bin/csh/exp.c:81-565 | whatever the words, an evaluation that succeeds leaves an end of the list |
| Expr.QuotientAndRemainder | usr/src/bin/csh/exp.c:369-381 | quotient times divisor plus remainder is the dividend, the remainder is smaller than the divisor and has the dividend's sign, wherever the quotient is an int |
| Expr.BitwiseBits | usr/src/bin/csh/exp.c:129-190 | the bit operators work on each of the 32 bits by itself |
| ExprMeaning.SameStop | usr/src/bin/csh/exp.c:87-565 | two evaluations of the same words, ignoring or not, in any worlds, that both succeed stop at the same word |
| ExprMeaning.IgnoredIsInert | usr/src/bin/csh/exp.c:87-565 | an ignored evaluation of any words changes nothing, makes no division or pattern error, and does not depend on what commands or file inquiries would answer; only globbing and the existence of a misplaced file name still count |
| ExprMeaning.DecidedSide | usr/src/bin/csh/exp.c:87-127 | the right side that a logical or, or a logical and, has decided against changes neither the value nor the world |
| ExprMeaning.OpParsed | usr/src/bin/csh/exp.c:597-642 | a written operator is recognised at its own level and at no higher one |
| ExprMeaning.CombineDenotes | usr/src/bin/csh/exp.c:87-388 | operators on decimal words give what they denote on the ints the words stand for |
| ExprMeaning.NumberWords | usr/src/bin/csh/exp.c:644-650 | which words are numbers, with their values, and which of the two errors the others give |
| ExprMeaning.IgnoredOperators | usr/src/bin/csh/exp.c:193-388 | where values are ignored no operator can fail but a shift, which still reads its operands |
| ExprMeaning.Runs | usr/src/bin/csh/exp.c:81-565 | every expression written at any level, with anything behind it that does not continue it, is evaluated to its meaning and consumed exactly; ignored, it is consumed just the same |
| ExprMeaning.ExprIsMeaning | usr/src/bin/csh/exp.c:81-85 | expr on the words of an expression gives its value and leaves no word |
| ExprMeaning.AnyExpression | usr/src/bin/csh/exp.c:81-565 | any expression tree, written with parentheses where right grouping and precedence need them, evaluates to its meaning |
| Subst.Matchs | usr/src/bin/csh/lex.c:1006-1012 | whether the left side is a prefix of the rest of the word |
| Subst.PutRight | usr/src/bin/csh/lex.c:915-942 | the right side with & and \& filled in, or an overflow exactly when it does not fit |
| Subst.EscapedStandsForItself | usr/src/bin/csh/lex.c:915-942 | every text can be written as a right side, with \& for each &, that puts exactly that text in place |
| Subst.AmpersandIsLeft | usr/src/bin/csh/lex.c:915-942 | a bare & in a right side puts the left side there, unless a backslash before it makes it an & of its own |
| Subst.ReplacedThere | usr/src/bin/csh/lex.c:909-955 | the left side is replaced where it first occurs and nothing else changes, or it overflows if and only if the result is longer than BUFSIZ - 4 |
| Subst.NothingThere | usr/src/bin/csh/lex.c:909-955 | a word is left alone if and only if the left side does not occur in it |
| Subst.ReplaceFirst | usr/src/bin/csh/lex.c:909-955 | the first match replaced, or the overflow exactly when the result is longer than BUFSIZ - 4 |
| Subst.DoMod | usr/src/bin/csh/lex.c:959-1004 | the backward scans of :h, :t, :r and :e cut at the last slash or dot, and :q and :x quote |
| Subst.HeadAndTail | usr/src/bin/csh/lex.c:975-987 | head, slash and tail make up the word again, and the tail has no slash |
| Subst.RootAndExtension | usr/src/bin/csh/lex.c:988-999 | root, dot and extension make up the word again, or there is no extension |
| Subst.NoSlash | usr/src/bin/csh/lex.c:975-987 | without a slash :h does not apply and :t keeps the word |
| Subst.QuotesBits | usr/src/bin/csh/lex.c:966-973 | the quote bit is set on every character, or by :x on all but blanks, and no other bit changes |
| Subst.SubWord | usr/src/bin/csh/lex.c:886-957 | one substitution of any kind |
| Subst.ReplaceUsesBudget | usr/src/bin/csh/lex.c:858-874 | a substitution that changes the word shortens it, lengthens it towards the overflow, or moves it strictly one way in the order of words |
| Subst.UsesBudget | usr/src/bin/csh/lex.c:858-874 | every modifier that changes a word uses up a budget of the word |
| Subst.Again | usr/src/bin/csh/lex.c:862-873 | the repeat loop ends for every word, left side and right side |
| Subst.Repeated | usr/src/bin/csh/lex.c:858-874 | the result of repeating is a word the modifier no longer changes |
| Subst.RepeatedIsApplied | usr/src/bin/csh/lex.c:858-874 | the result of repeating is that of some number of applications |
| Subst.ReplacedAway | usr/src/bin/csh/lex.c:858-874 | after :as no match is left, unless the substitution puts its own left side there |
| Subst.DoSub | usr/src/bin/csh/lex.c:835-884 | the words of the result, whether any was changed and whether any overflowed |
| Subst.EachWord | usr/src/bin/csh/lex.c:855-881 | each word that is tried, under g every one and else those up to the first that changed, has become what one application, or under a the repetition, makes of it; the others are as they were |
| Subst.FailsExactly | usr/src/bin/csh/lex.c:855-884 | the modifier fails if and only if it applies to no word |
| Subst.OverflowExactly | usr/src/bin/csh/lex.c:855-884 | an overflow is reported if and only if a word that is tried overflows, at once or under a after some applications |
| Subst.ChangedForGood | usr/src/bin/csh/lex.c:858-874 | under a no changed word would be changed again, and :as leaves no match of its left side |
| Subst.OnlyTheFirst | usr/src/bin/csh/lex.c:855-881 | without g the first word the modifier applies to is changed and none behind it |
| Subst.OneWordChanges | usr/src/bin/csh/lex.c:855-881 | without g and without an overflow before it, the first word the modifier applies to is all that changes |
| Subst.EveryWord | usr/src/bin/csh/lex.c:855-881 | with g the modifier is tried on every word, and it fails if and only if it applies to none |
| CommandHash.HashTable.DoHash | usr/src/bin/csh/exec.c:426-462 | exactly the bits of the entries of readable absolute path components are set |
| CommandHash.HashTable.SetBit | usr/src/bin/csh/exec.c:83-85 | one bit is set and no other changes |
| CommandHash.HashTable.HashName | usr/src/bin/csh/exec.c:483-491 | the loop is the hash of the name from the left |
| CommandHash.HashTable.IsCommand | usr/src/bin/csh/exec.c:493-535 | the first component that the table admits and that holds the name |
| CommandHash.SlashAsItStands | usr/src/bin/csh/exec.c:493-535 | a name with a slash is looked for as it stands, whatever the path |
| CommandHash.DotIsHere | usr/src/bin/csh/exec.c:493-535 | a component "." and an empty one are the same |
| CommandHash.SetNoBit | usr/src/bin/csh/exec.c:426-462 | entries that are gone, "." and "..", and components that are no absolute path set no bit |
| CommandHash.NoFalseNegatives | usr/src/bin/csh/exec.c:426-535 | over readable directories that have not changed, the answer with the table is the answer without it, for every name |
| CommandHash.HashExactly | usr/src/bin/csh/exec.c:426-535 | every search for a file name finds with the table what it finds without it if and only if every directory of the path can be read or every bit of the table is set |
| CommandHash.UnreadableDirectory | usr/src/bin/csh/exec.c:446-448 | a command in a directory that cannot be read is missed |
| Completion.IsPrefix | usr/src/bin/csh/file.c:541-549 | whether the typed name starts the entry |
| Completion.IsSuffix | usr/src/bin/csh/file.c:555-570 | the backward comparison decides whether one string ends the other |
| Completion.Recognize | usr/src/bin/csh/file.c:517-534 | the extended name becomes the longest common prefix of the entries seen so far |
| Completion.StopIsSafe | usr/src/bin/csh/file.c:528-531 | stopping once the extended name has shrunk to the typed one never changes the answer |
| Completion.Tsearch | usr/src/bin/csh/file.c:441-480 | the longest common prefix of all entries that qualify, ignored suffixes counting only if nothing else does; one match is told from none and from several |
| Completion.CandidatesAre | usr/src/bin/csh/file.c:441-480 | an entry that matches is left out if and only if it has an ignored suffix and another match has none |
| Completion.DotFiles | usr/src/bin/csh/file.c:443-450 | with nothing typed exactly the dot files are hidden, except among login names |
| Completion.SuffixMeans | usr/src/bin/csh/file.c:555-570 | a suffix is what is left behind some beginning |
| Completion.ExtensionUnique | usr/src/bin/csh/file.c:508-516 | the extended name is determined by the entries |
| Completion.SameCandidates | usr/src/bin/csh/file.c:441-480 | the entries that qualify, with their number, do not depend on the order of the directory |
| Completion.OrderIrrelevant | usr/src/bin/csh/file.c:441-480 | searches of one directory read in any two orders give the same name and tell none, one and several alike |
| Completion.PrintByColumn | usr/src/bin/csh/file.c:236-268 | row r lists the items r, r + rows, r + 2 rows and so on, within the width of the terminal |
| Completion.ListedOnce | usr/src/bin/csh/file.c:249-267 | every item is listed exactly once, down the columns |
| Environ.Environment.Setenv | usr/src/bin/csh/func.c:991-1020 | the entry of the name is replaced, or one is added behind the others |
| Environ.Environment.Unsetenv | usr/src/bin/csh/func.c:1022-1043 | the first entry of the name is removed |
| Environ.SetenvUpdates | usr/src/bin/csh/func.c:991-1020 | the name has the value and every other name what it had |
| Environ.SetenvExactly | usr/src/bin/csh/func.c:991-1020 | Setenv leaves every other name alone in every environment if and only if its name has no = |
| Environ.UnsetenvDeletes | usr/src/bin/csh/func.c:1022-1043 | if names are unique the name has no value, and in any case every other name has what it had |
| Environ.SetenvKeepsUnique | usr/src/bin/csh/func.c:991-1020 | unique names stay unique |
| Environ.UnsetenvKeepsUnique | usr/src/bin/csh/func.c:1022-1043 | unique names stay unique |
| Environ.NameWithEquals | usr/src/bin/csh/func.c:991-1020 | setting any name with a = in it gives a value to another name |
| Environ.Environment.DoUnsetenv | usr/src/bin/csh/func.c:939-989 | with a = in every matching entry the restart loop ends with exactly the matching entries gone |
| Environ.EndsWithKept | usr/src/bin/csh/func.c:959-986 | it takes one round for each matching entry |
| Environ.NeverEnds | usr/src/bin/csh/func.c:959-986 | with a matching entry that lacks the = the loop goes on for ever |
| Environ.EndsExactly | usr/src/bin/csh/func.c:959-986 | the restart loop ends if and only if every matching entry has a = |
| SparseCopy.PutChunk | usr/src/bin/cp/utils.c:149-157 | writing a chunk, or seeking over it if it is all zeroes, keeps the target in step with what was read |
| SparseCopy.CopyFile | usr/src/bin/cp/utils.c:144-165 | if no failure is reported the target is the source cut or zero-filled to stat's length, which is the source if and only if that is its length; a failure is reported only if a call failed |
| Numbers.GetnOfPutn | usr/src/bin/csh/set.c:333-394 | reading back a printed int gives it, over the whole 32-bit range |
| Numbers.PutnInjective | usr/src/bin/csh/set.c:333-371 | different ints are printed differently |
| Numbers.Decimal | usr/src/bin/csh/set.c:333-371 | numbers are printed in decimal: one more digit makes ten times as much and the digit |

## Left out

- Symbolic links and the home directory in `dcanon` (usr/src/bin/csh/dir.c:675-742, 759-888), and paths longer than MAXPATHLEN.
- Option flags, reference counts and printing of the directory stack; `+n` is an unbounded number.
- Paths.Dcanon: starts at p as the source does, but the part of dcanon that puts the current directory before a relative path (usr/src/bin/csh/dir.c:607-636) is left to Dgoto.
- Braces.ExpBrace: words are assumed to fit the MAXPATHLEN buffers; the truncation of longer words is not modelled.
- BraceMeaning.ExpandIsProduct: in written patterns a { outside a group or in a class is outside, because the code takes it for the start of a group; ExpBrace covers every word.
- Matching.PMatchIsLang: patterns with ^ directly behind *, where the code negates the rest of the pattern, with { behind *, where the rest is expanded once more, or with an unclosed class, which is an error, are outside; Pmatch itself covers every pattern.
- LrDriver.Parser.GrowStack: memory always suffices; the failure of realloc is not modelled.
- ConfigParse.Parse: the tokens and the results of the semantic actions are arbitrary inputs.
- ConfigTokens.MixedRead: words that begin with more digits than can be put back lose some of them, and the input is the current file; both are left to ConfigLexer.Yylex.
- ConfigTokens.MacroIsText: macro texts of several tokens or with quotes are left to ConfigTokens.MacroExpands, which covers every text.
- ConfigRun.NoErrorLost: of the actions only those on the input are modelled (errors, includes, macro definitions); the others, which build the LDAP configuration, succeed or fail by choice, and the values of nonterminals are not modelled. Line numbers and messages are left out.
- ConfigRun.GoodVerdict: the file system is a function of the name and does not change during a parse; includes can go on for ever, so a parse is taken after any number of steps.
- ConfigLexer.Yylex: the character classes are those of the C locale, and memory always suffices.
- ShellInput.Unseekable.Bgetc: read errors and the line editor behind tenex are not modelled; a line is any piece of the text that fits the buffer.
- ShellInput.Seekable.Bgetc: read errors, and btoeof, which moves the file away from the buffer on purpose, are not modelled.
- ShellInput.Unseekable.Readc: only the skipping of NULs is modelled, not aliases, evaluated words or end-of-file counting.
- Expr.Exp: the word cursor is returned instead of advanced in place; an empty word is no operator; shift counts are taken modulo 32 and overflow wraps around, where C leaves them undefined; commands in braces are a function on a world.
- Subst.DoSub: entries without a word are not modelled, and the words are assumed to fit the buffer before the first match; a word whose only slashes are quoted makes :h and :t leave the word, which is an outcome of its own.
- CommandHash.HashTable.IsCommand: the truncation of paths at MAXPATHLEN in executable is not modelled.
- Completion.Tsearch: LIST mode, tilde expansion and the login names themselves are not modelled.
- Environ.Environment.DoUnsetenv: requires a = in every matching entry, because otherwise the source does not return (NeverEnds); locale changes and the stripping of quote bits are not modelled.
- SparseCopy.CopyFile: the mmap variant, and setting owner, mode and times, are not modelled.
- The daemon `ifconfigd/` and the control program around the parser: libraries, processes and messages with little logic of their own.
- Terminal handling, job control, signals, aliases, variables, history files and prompts of the C shell.
