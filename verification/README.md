# A verified model of Tostitos

Tostitos is a small operating system with its own language, TosLang. This project models the
front end of the TosLang compiler, the MinChip16 machine and two smaller state machines of the
system in Dafny, and proves properties of each. Every class modelled that updates its fields
is a Dafny class whose methods are proved equal to functions on its state; what the system
promises is then proved of those functions, for all inputs and all runs.

`dafny verify dfyconfig.toml` checks everything.

## The parts

- **The tree as a file.** `Ast` is the tree. `AstPrinter` writes it as indented lines; `AstReading`
  and `AstReader` read such lines back by comparing indentation. `AstRoundTrip` shows for which
  trees nothing is lost: it proves the round trip for legible trees and, by characterising what the
  reader can return at all, that no other tree comes back. `PrintedLines` shows what the lines tell of
  every other tree, `ReadLines` what the reader makes of every other file.
- **The tree as source text.** `Lexing`/`Lexer` turn characters into tokens and
  `Parsing`/`Parser` tokens into trees. `Spelling` writes trees down; `LexerRoundTrip`,
  `ParserRoundTrip` and `SourceRoundTrip` show which tree comes back: the same one, with its operators
  nested to the right. `LexedComments` and `CommentedBlocks` are about comments, `ParserErrors` about
  source that is no program.
- **Scopes.** `LexicalScoping` states the scoping rules with a stack of environments.
  `Collecting`/`SymbolCollector` and `SymbolTable` do it with a flat table and scope ids;
  `ScopingRefinement` shows that they refine the rules as coded, and `ScopingVerdict` when those are
  the lexical rules. `ScopeEvents`, `EventNodes`, `LateVariables` and `LateBindings` say the same
  of positions in the program, and for which programs verdict and bindings are right; `ScopeNumbers` what the ids and the path are.
  `TableContents` shows that the table records what the tree declares.
- **Types.** `TypingRules` gives expressions their types and calls their meanings, from declarations
  alone; `TableDeclarations` reads the symbol table as declarations.
  `TypeChecking`/`TypeChecker` is the checker with its overload sets; `TypingFrames`,
  `TypingExpressions`, `TypingCalls`, `TypingVisits`, `TypingSoundness` and `TypingVerdict` show that it accepts
  exactly the programs that are well typed by the rules as coded, and `TypingBreakdown` when it breaks
  down. `NestedVerdict`, `TypingIntent` and `UncheckedTypes` compare these rules with the intended
  ones, quirk by quirk. `Compiler` runs both checks.
- **Control flow graphs.** `ControlFlowGraph`, `CfgVisitor` and `VisitOrder`: depth-first visits of any
  graph, and their orders.
- **The machine.** `Machine`, `Cpu`, `Execution` and `Interpreter` model the processor and all
  its opcodes; `WordBits`, `InstructionEffects` and `TransferEffects` say what each opcode does, by bytes and
  bits; `MachineRuns`, `SaveRestore` and `Comparisons` prove properties of single instructions and
  of whole runs; `InstructionWord` relates the bits of an instruction to what is decoded.
- **User memory.** `UserMemory` is the allocator, `MemoryRuns` what its runs keep.

## Where the code differs from what it is meant to do

The model follows the code. Each difference is stated exactly, by a condition or a concrete input.

- A variable is entered under the id of the scope opened last, which is no longer the current
  one once a block has been closed (TosLang/Sema/symbolcollector.cpp:138). So "no errors" does not
  mean "well scoped" once a variable follows a block or a function:
  `LateVariables.VerdictIsRightExactly` says for which programs it does,
  `LateBindings.BindingsAreRightExactly` for which identifiers are bound rightly, and
  `ScopingVerdict.WellScopedButRejected` and `ScopingVerdict.IllScopedButAccepted` are failing inputs.
- Operators have no precedence and associate to the right (TosLang/Parse/parser.cpp:372-389), against
  the usual reading of `-` and `/`: `ParserRoundTrip.SubtractionNestsRight`.
- Array types of parameters and results are accepted only when malformed
  (TosLang/Parse/parser.cpp:123-125 and 158-160): `ParserRoundTrip.ArrayParametersSpoilFunctions` and
  `ParserRoundTrip.ArrayResultsAreInverted`.
- The printer writes the number 0 and scan statements, which the reader cannot read back
  (TosLang/Utils/astreader.cpp:33 and 291-296): `AstRoundTrip.ZeroIsLost`, `AstRoundTrip.ScanIsLost`.
- An argument that is a call is judged by what the outer function returns, not by what its
  parameter takes (TosLang/Sema/typechecker.cpp:383-390): `NestedVerdict.RightExactly` and
  `NestedVerdict.RightInEveryProgram` say when that comes to the same, and
  `NestedVerdict.NestedCallComparesResults` is a call that is misjudged.
- Sleep statements are never dispatched to their handler (TosLang/Common/astvisitor.h:202-267):
  `UncheckedTypes.SleepAcceptedRightly` says when that is right, `UncheckedTypes.TextSleepIsAccepted` is a
  program for which it is not.
- An index expression gets the type of the whole array (TosLang/Sema/typechecker.cpp:443), and a wrong
  type of an indexed initializer is not counted (lines 182-209): `TypingIntent.IndexTypesDiffer`,
  `TypingIntent.IndexedRightExactly` and `UncheckedTypes.IndexedAcceptedRightly` say when that is right, and
  `UncheckedTypes.IndexedInitIsAccepted` are programs for which it is not. Such trees are only built by
  hand: the parser never gets past the bracket, and the tree reader knows no index expressions.
- No type is looked up for operands of a binary expression that are calls, strings, arrays or
  indexed: variables that were not set are compared (TosLang/Sema/typechecker.cpp:281-312). The model
  lets them hold any types (`noise`). `TypingIntent.BinaryRightExactly` says when the verdict does not
  depend on them and is right, and `UncheckedTypes.TextComparisonDepends` and
  `UncheckedTypes.CallComparisonDepends` are programs for which it does.
- A call that is an element of an array has no type (TosLang/Sema/typechecker.cpp:242-255):
  `TypingIntent.ElementsRightExactly`, `TypingBreakdown.CallElementBreaks`.
- Which of several functions a call of calls is bound to can depend on the order of iteration over a hash
  map (TosLang/Sema/typechecker.cpp:96-134): `NestedVerdict.BindingFollowsOrder`.
- Instead of counting an error the checker can fail a lookup or dereference null
  (TosLang/Sema/typechecker.cpp:85, 286 and 499-506): `TypingBreakdown.BreakdownExactly` says for which
  programs, and `TypingBreakdown.BareReturnProgramBreaks`, `TypingBreakdown.MixedArrayBreaks`,
  `TypingBreakdown.CallElementBreaks` and `TypingBreakdown.MismatchedOperandBreaks` are four of them.
- The overflow flag is set too often (Tostitos/machine/cpu.cpp:248-250 and 273-275), and the conditions A, G,
  GE, L and LE do not compare flags as docs/MinChip16 Specifications.txt asks
  (Tostitos/machine/interpreter.cpp:421-440): `Comparisons.AdditionOverflowRightExactly`,
  `Comparisons.SubtractionOverflowRightExactly` and `Comparisons.OrdersRightExactly` say when they are right,
  and `Comparisons.SmallSumOverflows`, `Comparisons.SmallDifferenceOverflows` and `Comparisons.OrdersGoWrong`
  are operands for which they are not.
- Stores are allowed up to and including the first address of the stack
  (Tostitos/machine/cpu.cpp:177-190), so the first frame is not protected: `MachineRuns.WordIsTracked` says when it is
  kept, and `MachineRuns.FirstReturnIsLost` is a program that loses it.
- The setters of an instruction go by the low digit of its opcode, which is not 0 for ten of the
  instructions that read an immediate value, CMPI and TSTI among them, and take shifts for instructions
  that work in place (Tostitos/machine/instruction.cpp:71-104): `InstructionWord.ImmediateIsSettable`,
  `InstructionWord.ImmediateModeDecodes` and `InstructionWord.ShiftCountIsSettable` say for which they work, and
  `InstructionWord.CompareImmediateIsLost` is an instruction that loses its operand.
- Spawned calls and indices are never parsed, and a semicolon behind sync is taken for a statement
  (TosLang/Parse/parser.cpp:264-303, 304-317 and 484-486): `ParserErrors.SpawningIsNeverRead`,
  `ParserErrors.IndexingIsNeverRead`, `ParserErrors.SyncTakesNoSemicolon`.
- A comment in front of the first declaration leaves an error node (TosLang/Parse/parser.cpp:35-58):
  `ParserErrors.LeadingTokensAreError`.
- `/*/` is a whole comment (TosLang/Parse/lexer.cpp:110-126): `LexedComments.BlockCommentIsRead`.
- Freeing user memory takes one byte of the size (Tostitos/memory/userMemory.cpp:32):
  `MemoryRuns.MarksTellUse`, `MemoryRuns.FreedInVain`.

## Model

| member | source | states |
|---|---|---|
| AstRoundTrip.RoundTripExactly | TosLang/Utils/astreader.cpp:45-309 | For every tree whose texts stay on their lines and which holds no error node: reading what the printer wrote returns exactly that tree, source locations included, if and only if the tree is `Legible` (no scan, sleep, sync, spawn or index nodes, no empty array, numbers at least 1, no quote in a string, locations default or positive, expression statements binary or calls) |
| AstRoundTrip.LegibleRoundTrips | TosLang/Utils/astreader.cpp:45-309 | Reading a printed legible tree returns it and uses up every line, although parameters are printed one level deeper than their position |
| AstRoundTrip.ReadTreeIsLegible | TosLang/Utils/astreader.cpp:45-309 | Whatever the file holds, every tree the reader returns is legible, or null when the first line is no program line |
| AstRoundTrip.RereadIsStable | TosLang/Utils/astreader.cpp:45-74 | Printing a tree that was read from any file, if it holds no error node and its texts stay on their lines, and reading it again returns it unchanged |
| AstRoundTrip.ExprRoundTrip | TosLang/Utils/astreader.cpp:135-216 | Reading the lines of an expression, wherever they stand in a file, returns it and stops on the first line behind them |
| AstRoundTrip.CallRoundTrip | TosLang/Utils/astreader.cpp:174-192 | The loop over the arguments of a call stops at the first line that is not indented deeper than the call |
| AstRoundTrip.ArrayRoundTrip | TosLang/Utils/astreader.cpp:140-156 | The loop over array elements stops at the first line indented less than the first element |
| AstRoundTrip.VarRoundTrip | TosLang/Utils/astreader.cpp:109-131 | A declaration takes a deeper next line for its initializer and stops behind it |
| AstRoundTrip.StmtRoundTrip | TosLang/Utils/astreader.cpp:249-309 | Reading the lines of a statement returns it and stops on the first line behind them |
| AstRoundTrip.StmtsRoundTrip | TosLang/Utils/astreader.cpp:220-247 | The loop over the statements of a block stops on the first line not deeper than the block |
| AstRoundTrip.FunctionRoundTrip | TosLang/Utils/astreader.cpp:87-107 | A function comes back with its parameters and body, the two indented differently |
| AstRoundTrip.DeclsRoundTrip | TosLang/Utils/astreader.cpp:60-70 | All declarations of a program come back, up to the last line |
| AstRoundTrip.ZeroIsLost | TosLang/Utils/astreader.cpp:17-43 | A concrete program that is not read back: the number 0 matches no number line |
| AstRoundTrip.ScanIsLost | TosLang/Utils/astreader.cpp:291-296 | A concrete program that is not read back: the operand of a scan is looked for on the line of the scan itself |
| AstRoundTrip.TabInStringIsLost | TosLang/Utils/astreader.cpp:140-156 | A concrete program that is not read back: tabs inside a string count as indentation, and an array loses its second element |
| AstPrinter.ASTPrinter.Run | TosLang/Utils/astprinter.h:38-43 | Printing appends exactly the lines `Printed` defines and leaves the level as it was |
| AstPrinter.ASTPrinter.VisitPreOrder | TosLang/Common/astvisitor.h:52-67 | The traversal with the printer's hooks appends the lines of the node and of its children, one level deeper, silent nodes included |
| AstPrinter.ASTPrinter.DispatchNode | TosLang/Utils/astprinter.h:48-283 | Every kind of node that has a handler gets the one line that its handler writes, any other none |
| AstPrinter.ASTPrinter.Indent | TosLang/Utils/astprinter.h:285-294 | One tab less than the current level |
| AstReader.ASTReader.Run | TosLang/Utils/astreader.cpp:45-74 | The reader returns what `ReadTree` says of its lines; where that says there is no tree the real reader fails an assertion or never returns |
| AstReader.ASTReader.ReadDecl | TosLang/Utils/astreader.cpp:63-70 | Reads one declaration and moves the cursor as `ReadDecl` says |
| AstReader.ASTReader.ReadFuncDecl | TosLang/Utils/astreader.cpp:87-107 | Result and new cursor are those of `ReadFuncDecl`: parameters are read while lines announce one |
| AstReader.ASTReader.ReadVarDecl | TosLang/Utils/astreader.cpp:109-131 | Result and new cursor are those of `ReadVarDecl` |
| AstReader.ASTReader.ReadOptional | TosLang/Utils/astreader.cpp:124-128 | A child is read exactly when the next line is deeper |
| AstReader.ASTReader.ReadExpr | TosLang/Utils/astreader.cpp:135-216 | Result and new cursor are those of `ReadExpr` |
| AstReader.ASTReader.ReadElems | TosLang/Utils/astreader.cpp:144-153 | Elements are read while lines are at least as deep as the first |
| AstReader.ASTReader.ReadArgs | TosLang/Utils/astreader.cpp:178-188 | Arguments are read while lines are deeper than the call |
| AstReader.ASTReader.ReadCompoundStmt | TosLang/Utils/astreader.cpp:220-247 | Result and new cursor are those of `ReadCompound`; a deeper line no rule takes makes the loop run forever |
| AstReader.ASTReader.ReadChild | TosLang/Utils/astreader.cpp:235-241 | Which lines a block takes for a declaration, a statement or an expression |
| AstReader.ASTReader.ReadStmt | TosLang/Utils/astreader.cpp:249-309 | Result and new cursor are those of `ReadStmt` |
| AstReader.ASTReader.ReadGuarded | TosLang/Utils/astreader.cpp:258-264 | Condition, then body |
| AstReading.VarLineIsInside | TosLang/Utils/astreader.cpp:109-131 | A line that is taken for a declaration lies inside the file |
| PrintedLines.FirstLineTells | TosLang/Utils/astprinter.h:48-283 | Of every node that has a handler, scans and the number 0 included, the first line printed gives back its kind and all its own fields, by a decoder of lines that does not use the printer, at the indentation of its level; a node without handler has no line of its own |
| PrintedLines.LinesDetermine | TosLang/Utils/astprinter.h:38-283 | The lines of a tree without silent nodes, whatever follows them less deep, determine the tree and where they end |
| PrintedLines.ForestDetermines | TosLang/Utils/astprinter.h:38-283 | The same for the trees side by side below a node |
| PrintedLines.PrintingIsInjective | TosLang/Utils/astprinter.h:38-43 | No two such trees are printed alike |
| ReadLines.TreeTellsLines | TosLang/Utils/astreader.cpp:45-309 | Whatever the file: a tree the reader returns is null, and then the file does not start with a program line, or its nodes in order are the lines of the whole file, each saying its node; an error node stands exactly where the line is no expression, and only the first line of a body is not looked at |
| ReadLines.ExprTells | TosLang/Utils/astreader.cpp:135-216 | An expression read from any line of any file takes as many lines as it has nodes, and each says its node |
| ReadLines.StmtsTell | TosLang/Utils/astreader.cpp:220-247 | So do the statements of a block |
| ReadLines.FunctionTells | TosLang/Utils/astreader.cpp:87-107 | And a function with its parameters and its body |
| SourceRoundTrip.TextRoundTrip | TosLang/Parse/parser.cpp:18-71 | For every program that can be written down and any white space between its tokens: lexing and parsing its text gives the program with operators nested to the right; so it gives the same program, locations apart, if and only if no binary left operand is itself binary |
| ParserRoundTrip.RoundTripExactly | TosLang/Parse/parser.cpp:35-71 | For every program that can be written down: parsing its tokens gives the same program, locations apart, if and only if no binary left operand is binary |
| ParserRoundTrip.ProgramParses | TosLang/Parse/parser.cpp:35-71 | Parsing the tokens of any program that can be written down uses them all up and gives the program re-nested to the right |
| ParserRoundTrip.ExprParses | TosLang/Parse/parser.cpp:239-336 | Parsing the tokens of an expression before any terminator gives it re-nested and stops exactly on the terminator |
| ParserRoundTrip.OperandParses | TosLang/Parse/parser.cpp:294-299 | An operand followed by an operator becomes its left operand, and all that follows its right operand |
| ParserRoundTrip.ListParses | TosLang/Parse/parser.cpp:338-437 | Elements and arguments separated by commas are all parsed, up to the closing token |
| ParserRoundTrip.VarParses | TosLang/Parse/parser.cpp:169-237 | A declaration is parsed up to its semicolon |
| ParserRoundTrip.StmtParses | TosLang/Parse/parser.cpp:453-506 | A statement is parsed up to its last token, on which the parser stays |
| ParserRoundTrip.BlockParses | TosLang/Parse/parser.cpp:439-516 | A block is parsed up to its closing brace, on which the parser stays |
| ParserRoundTrip.FunctionParses | TosLang/Parse/parser.cpp:73-167 | A function is parsed up to the closing brace of its body |
| ParserRoundTrip.DeclsParse | TosLang/Parse/parser.cpp:41-68 | All declarations are parsed and the skipping between them skips nothing else |
| ParserRoundTrip.SimpleIsErased | TosLang/Parse/parser.cpp:372-389 | Without binary left operands, re-nesting changes nothing but the locations |
| ParserRoundTrip.ErasedIsSimple | TosLang/Parse/parser.cpp:372-389 | And only then |
| ParserRoundTrip.SubtractionNestsRight | TosLang/Parse/parser.cpp:372-389 | `a - b - c` is read as `a - (b - c)` |
| ParserRoundTrip.ArrayResultsAreInverted | TosLang/Parse/parser.cpp:145-166 | A function whose result has an array type becomes an error node exactly when the size is spelled correctly; otherwise its body is parsed from where reading the type stopped |
| ParserRoundTrip.ArrayParametersAreInverted | TosLang/Parse/parser.cpp:121-125 | The routine for a parameter accepts an array type exactly when that type is not spelled correctly, that for a variable only when it is |
| ParserRoundTrip.ArrayParametersSpoilFunctions | TosLang/Parse/parser.cpp:94-143 | A function with a parameter of array type becomes an error node where reading the type stopped if the type is spelled correctly; it goes on, with that parameter, exactly when a parenthesis or comma takes the place of the closing bracket, or of size and bracket |
| Spelling.GraftAssociates | TosLang/Parse/parser.cpp:372-389 | Re-nesting a chain of operators step by step or all at once is the same |
| CommentedBlocks.CommentsChangeNothing | TosLang/Parse/parser.cpp:453-506 | A block with comments before any of its statements and before its closing brace, at every depth, is parsed to the same tree with the same end as the block without them |
| CommentedBlocks.CommentsAreSkipped | TosLang/Parse/parser.cpp:487-490 | Comment tokens inside a block, before any tokens whatever, change neither its statements nor its end |
| CommentedBlocks.CommentedStmtsParse | TosLang/Parse/parser.cpp:453-506 | The statements of a block spelled with comments are those spelled |
| ParserErrors.IndexingIsNeverRead | TosLang/Parse/parser.cpp:304-317 | Whatever follows an opening bracket behind an operand, the parser does not get past it |
| ParserErrors.SpawningIsNeverRead | TosLang/Parse/parser.cpp:264-303 | The call behind `spawn` is never read, whatever its arguments |
| ParserErrors.SyncTakesNoSemicolon | TosLang/Parse/parser.cpp:484-486 | A sync statement ends with its keyword; a semicolon behind it leaves a null statement |
| ParserErrors.InnerFunctionIsSkipped | TosLang/Parse/parser.cpp:491-497 | A function inside a block is skipped up to the first closing brace and leaves a null statement |
| ParserErrors.MissingOperandIsNull | TosLang/Parse/parser.cpp:372-389 | An operator without right operand makes the whole expression null |
| ParserErrors.MissingExprIsError | TosLang/Parse/parser.cpp:539-610 | Print, scan and sleep statements without an expression are error nodes, up to the token found instead; a return, and a print before a semicolon, may go without |
| ParserErrors.ScanningOthersIsError | TosLang/Parse/parser.cpp:576-593 | A scan of an expression is an error node exactly when that is no identifier |
| ParserErrors.MissingBlockIsError | TosLang/Parse/parser.cpp:518-537 | If and while statements without a block, or without a condition, are error nodes |
| ParserErrors.MalformedVarIsError | TosLang/Parse/parser.cpp:169-237 | A variable declaration with a wrong token for its name, colon or type, or behind the type, is an error node up to that token |
| ParserErrors.MalformedInitIsError | TosLang/Parse/parser.cpp:214-236 | So is one without its initializer, or with anything but a semicolon behind it |
| ParserErrors.MalformedFunctionIsError | TosLang/Parse/parser.cpp:73-167 | So is a function with a wrong token for its name, parenthesis, arrow or result |
| ParserErrors.LeadingTokensAreError | TosLang/Parse/parser.cpp:35-68 | Tokens in front of the first declaration, comments included, leave an error node in the program |
| ParserErrors.OtherTokensAreSkipped | TosLang/Parse/parser.cpp:60-68 | Tokens between two declarations, comments included, are skipped and leave nothing |
| LexerRoundTrip.WrittenIsRead | TosLang/Parse/lexer.cpp:24-290 | Every sequence of spellable tokens is read back from its text, whatever white space separates them |
| LexerRoundTrip.LexemeIsRead | TosLang/Parse/lexer.cpp:34-288 | A token followed by white space or the end is read back, and reading stops right behind it |
| LexerRoundTrip.TokenAdvances | TosLang/Parse/lexer.cpp:40-289 | Every call consumes a character, unless the token is unknown |
| Characters.DecimalValue | TosLang/Parse/lexer.cpp:259-285 | The value of the numeral of a number is that number |
| Lexing.WordEnds | TosLang/Parse/lexer.cpp:206-210 | A word ends exactly where the letters and digits do |
| Lexing.NumeralEnds | TosLang/Parse/lexer.cpp:263-266 | A numeral ends exactly where the digits do |
| Lexing.SearchEnds | TosLang/Parse/lexer.cpp:177-190 | A search stops at the first of the characters searched for |
| LexedComments.LineCommentIsRead | TosLang/Parse/lexer.cpp:102-109 | A comment to the end of the line is one token, and the line break is left |
| LexedComments.BlockCommentIsRead | TosLang/Parse/lexer.cpp:110-130 | A comment of several lines ends with the first star and slash behind its first character, for which the star that opens it counts; without any, all the rest is lost |
| LexedComments.OpenStringIsLost | TosLang/Parse/lexer.cpp:175-200 | A string with a line break in it is lost with everything up to and with the next quote |
| LexedComments.EndlessStringIsLost | TosLang/Parse/lexer.cpp:175-200 | A string that is not closed at all is lost |
| LexedComments.SpoiledNumberIsLost | TosLang/Parse/lexer.cpp:260-286 | A number that runs into a letter is lost with everything up to and with the next semicolon |
| Characters.ClassesHold | TosLang/Parse/lexer.cpp:203-286 | Which characters, by their codes, are white space, digits and letters |
| Characters.NumeralsAreDecimal | TosLang/Parse/lexer.cpp:259-285 | Numerals are read in base ten |
| Lexer.Lexer.GetNextToken | TosLang/Parse/lexer.cpp:24-35 | Token and remaining text are those of `NextToken`; names, strings and numbers are left in the fields |
| Lexer.Lexer.ReadToken | TosLang/Parse/lexer.cpp:38-288 | Token and remaining text are those of `TokenAt` |
| Lexer.Lexer.OneOrTwo | TosLang/Parse/lexer.cpp:70-101 | An operator of one or two characters, by the character behind it |
| Lexer.Lexer.SlashOrComment | TosLang/Parse/lexer.cpp:102-134 | A line comment ends before its newline, a block comment behind its symbol; or a division |
| Lexer.Lexer.SkipComment | TosLang/Parse/lexer.cpp:110-130 | A comment ends at the first closing symbol; without one everything is consumed and the token is unknown |
| Lexer.Lexer.ReadCharacters | TosLang/Parse/lexer.cpp:176-178 | Gathers exactly the characters before the next newline or quote |
| Lexer.Lexer.ReadString | TosLang/Parse/lexer.cpp:175-200 | A string on one line; a newline in it spoils everything up to the next quote |
| Lexer.Lexer.ReadWord | TosLang/Parse/lexer.cpp:203-258 | The longest word, which is a keyword or a name |
| Lexer.Lexer.ReadNumber | TosLang/Parse/lexer.cpp:260-286 | The value of the longest numeral; a letter behind it spoils everything up to the next semicolon |
| Parser.Parser.ParseProgram | TosLang/Parse/parser.cpp:35-71 | Result and remaining tokens are those of the specification `ParseProgram`: all declarations |
| Parser.Parser.ParseDecl | TosLang/Parse/parser.cpp:44-58 | Result and remaining tokens are those of the specification `ParseDecl`: one declaration; an unexpected token adds the node left over from before |
| Parser.Parser.SkipToDecl | TosLang/Parse/parser.cpp:62-67 | Result and remaining tokens are those of the specification `SkipToDecl`: everything up to the next declaration is skipped |
| Parser.Parser.ParseFunctionDecl | TosLang/Parse/parser.cpp:73-167 | Result and remaining tokens are those of the specification `ParseFunctionDecl`: a function |
| Parser.Parser.ParseParams | TosLang/Parse/parser.cpp:96-145 | Result and remaining tokens are those of the specification `ParseParams`: the parameters up to the closing parenthesis |
| Parser.Parser.ParseParam | TosLang/Parse/parser.cpp:97-134 | Result and remaining tokens are those of the specification `ParseParam`: one parameter; an array type is taken for an error, and only a malformed one is accepted |
| Parser.Parser.ParseReturnType | TosLang/Parse/parser.cpp:145-166 | Result and remaining tokens are those of the specification `ParseReturnType`: return type and body; an array type is taken for an error |
| Parser.Parser.ParseArrayType | TosLang/Parse/parser.cpp:632-670 | Result and remaining tokens are those of the specification `ParseArrayType`: size and array type |
| Parser.Parser.ParseVarDecl | TosLang/Parse/parser.cpp:169-237 | Result and remaining tokens are those of the specification `ParseVarDecl`: a variable |
| Parser.Parser.ParseInit | TosLang/Parse/parser.cpp:214-236 | Result and remaining tokens are those of the specification `ParseInit`: initializer and semicolon |
| Parser.Parser.ParseExpr | TosLang/Parse/parser.cpp:239-336 | Result and remaining tokens are those of the specification `ParseExpr`: an expression |
| Parser.Parser.ParseTail | TosLang/Parse/parser.cpp:294-336 | Result and remaining tokens are those of the specification `ParseTail`: what follows the first operand; anything unexpected makes the expression null |
| Parser.Parser.ParseBinaryOpExpr | TosLang/Parse/parser.cpp:372-389 | Result and remaining tokens are those of the specification `ParseBinaryOpExpr`: the right operand takes all that follows |
| Parser.Parser.ParseCallExpr | TosLang/Parse/parser.cpp:391-437 | Result and remaining tokens are those of the specification `ParseCallExpr`: a call |
| Parser.Parser.ParseArgs | TosLang/Parse/parser.cpp:400-427 | Result and remaining tokens are those of the specification `ParseArgs`: the arguments |
| Parser.Parser.ParseArrayExpr | TosLang/Parse/parser.cpp:338-370 | Result and remaining tokens are those of the specification `ParseArrayExpr`: an array |
| Parser.Parser.ParseCompoundStmt | TosLang/Parse/parser.cpp:439-516 | Result and remaining tokens are those of the specification `ParseCompoundStmt`: a block; a statement that is not recognised leaves a null behind |
| Parser.Parser.ParseStmt | TosLang/Parse/parser.cpp:455-501 | Result and remaining tokens are those of the specification `ParseStmt`: one statement |
| Parser.Parser.ParseGuarded | TosLang/Parse/parser.cpp:518-537 | Result and remaining tokens are those of the specification `ParseGuarded`: condition and block |
| Parser.Parser.ParsePrintStmt | TosLang/Parse/parser.cpp:539-560 | Result and remaining tokens are those of the specification `ParsePrintStmt`: a print |
| Parser.Parser.ParseReturnStmt | TosLang/Parse/parser.cpp:562-574 | Result and remaining tokens are those of the specification `ParseReturnStmt`: a return |
| Parser.Parser.ParseScanStmt | TosLang/Parse/parser.cpp:576-593 | Result and remaining tokens are those of the specification `ParseScanStmt`: a scan |
| Parser.Parser.ParseSleepStmt | TosLang/Parse/parser.cpp:595-610 | Result and remaining tokens are those of the specification `ParseSleepStmt`: a sleep |
| SymbolCollector.SymbolCollector.Run | TosLang/Sema/symbolcollector.cpp:54-65 | For every program whose functions have bodies: the number of errors is the number of violations of the scoping rules as coded; it is 0 exactly when nothing is lexically wrong but late variables declared twice, no name is used that is visible through late variables only, and no late variable shares its name with an entry of the closed scope it lands in; every identifier is bound to one of the declarations those rules give, which are those of lexical scoping if no identifier is lexically a late variable; variables all land in the scope that declares them if and only if no variable declaration follows a block in its scope; the scope path is back to [0]; the table has no two entries that clash, and each stands at a declaration of the tree and records its name with its type and size, or its result and parameter types; and without errors the table declares exactly what the tree declares |
| ScopingRefinement.ProgramRefines | TosLang/Sema/symbolcollector.cpp:54-169 | Flat table, growing scope ids and path of open ids refine a stack of environments: errors, bindings and misplacements are those of the rules, for every program |
| ScopingRefinement.StmtRefines | TosLang/Sema/symbolcollector.cpp:20-51 | Each statement keeps the refinement: the path lists the ids of the open scopes, innermost first and 0 last, each id standing for its environment |
| ScopingRefinement.FunctionRefines | TosLang/Sema/symbolcollector.cpp:67-123 | Parameters are entered under the id the body's scope receives afterwards, so both share one environment |
| ScopingRefinement.CollectGrows | TosLang/Common/astvisitor.h:52-67 | Visiting a node adds to the table at most entries for nodes of its subtree |
| ScopingRefinement.CandidatesAgree | TosLang/Sema/symboltable.cpp:60-79 | Searching the table along the path finds exactly the declarations the environments give |
| ScopingRefinement.CollectKeepsCollected | TosLang/Sema/symboltable.cpp:12-58 | Whatever is visited, the table never gets two variables with equal scope and name or two functions with equal name and types |
| LateVariables.VerdictIsRightExactly | TosLang/Sema/symbolcollector.cpp:125-145 | For every program, when the verdict is the lexical one: a well-scoped program is accepted if and only if no use resolves lexically to late variables only and no late variable collides with an entry of the closed scope it lands in; an ill-scoped one is rejected if and only if something else than a late variable declared twice is wrong, or one of these two |
| LateVariables.AcceptedExactly | TosLang/Sema/symbolcollector.cpp:54-145 | The collector counts no error if and only if nothing but late variables declared twice is lexically wrong, no name is visible through late variables only, and no late variable collides |
| LateBindings.BindingsAreRightExactly | TosLang/Sema/symbolcollector.cpp:159-169 | For every program: the declarations each identifier may be bound to are those of lexical scoping if and only if no identifier is, lexically, a late variable, that is, the innermost open scope with a variable of its name has a late one |
| LateBindings.ResolveCompared | TosLang/Sema/symboltable.cpp:60-79 | A lookup from any open scope on finds the same under both rules if and only if the innermost of these scopes that has the name has no late variable for it |
| EventNodes.NodesDiffer | TosLang/Sema/symbolcollector.cpp:54-169 | No node of a program is declared or used twice, so bindings are told apart by their nodes |
| LateVariables.ProgramJudged | TosLang/Sema/symbolcollector.cpp:54-169 | Under either rules there are no violations if and only if every declaration and use is in order among the declarations before it, said by positions in the program and open scopes alone, without environments |
| LateVariables.CodedVisibility | TosLang/Sema/symbolcollector.cpp:138-138 | What the collector finds at a use are exactly the declarations in open scopes that are not late |
| LateVariables.LateIsLost | TosLang/Sema/symbolcollector.cpp:138-138 | The scope that a late variable lands in is never open again |
| ScopeEvents.ProgramHappens | TosLang/Sema/symbolcollector.cpp:54-169 | Checking a program recursively is checking the sequence of its openings, closings, declarations and uses one after the other |
| ScopeNumbers.PathListsEnclosing | TosLang/Sema/symbolcollector.cpp:20-51 | At every node visited the path lists the ids of exactly the compounds around it, innermost first, then what it listed before; the counter is the number of compounds entered so far |
| ScopeNumbers.NumbersDiffer | TosLang/Sema/symbolcollector.cpp:20-35 | No two compounds of a program get the same id |
| ScopeNumbers.CollectCounts | TosLang/Sema/symbolcollector.cpp:20-51 | A visit raises the counter by the number of compounds in the tree and never lowers it |
| ScopeNumbers.ParametersShareTheBody | TosLang/Sema/symbolcollector.cpp:102-123 | Parameters are entered under the id that the body of their function gets |
| ScopingVerdict.VerdictIsLexical | TosLang/Sema/symbolcollector.cpp:125-145 | Every variable lands in the scope that declares it if and only if variables come before blocks in each scope, and then the rules as coded are the lexical rules, bindings included; the exact condition for the verdict is `LateVariables.VerdictIsRightExactly` |
| ScopingVerdict.LateVariableIsInvisible | TosLang/Sema/symbolcollector.cpp:138-138 | A variable declared after a block never becomes visible, where lexical scoping would bind its name |
| ScopingVerdict.WellScopedButRejected | TosLang/Sema/symbolcollector.cpp:138-138 | A concrete well-scoped program in which an error is counted |
| ScopingVerdict.IllScopedButAccepted | TosLang/Sema/symbolcollector.cpp:138-138 | A concrete program with a duplicate declaration in which none is counted |
| LexicalScoping.ResolveIsUnique | TosLang/Sema/symboltable.cpp:60-79 | When no function has its name, an identifier is bound to one declaration at most, whatever the iteration order |
| SymbolTable.SymbolTable.AddSymbol | TosLang/Sema/symboltable.cpp:12-58 | A symbol is added exactly when no entry clashes with it, and the table is otherwise unchanged |
| SymbolTable.SymbolTable.AddVariableUse | TosLang/Sema/symboltable.cpp:60-79 | The use is bound to some entry of the first scope on the path that has its name |
| SymbolTable.SymbolTable.AddFunctionUse | TosLang/Sema/symboltable.cpp:81-96 | The use is bound to the first entry equal to the symbol |
| SymbolTable.SymbolTable.GetOverloadCandidates | TosLang/Sema/symboltable.cpp:135-149 | The functions of that name in order of iteration |
| SymbolTable.WithName | TosLang/Sema/symboltable.cpp:135-149 | An entry is a candidate exactly when it is a function of that name, and none is listed twice |
| SymbolTable.Entry | TosLang/Sema/symboltable.cpp:83-87 | Finds an entry equal to the symbol if there is one |
| SymbolTable.AddingKeepsCollected | TosLang/Sema/symboltable.cpp:12-58 | Adding a symbol keeps the table free of clashes |
| TableContents.ProgramContents | TosLang/Sema/symbolcollector.cpp:54-145 | For every program: every entry of the table tells what the node of the tree it is for declares (type, name and size of a variable; name, result and parameter types of a function); without errors every declaration has its entry, and the table read as declarations is what the program declares |
| TableContents.CollectRecords | TosLang/Sema/symbolcollector.cpp:67-145 | Whatever is visited, every entry tells of the node it is for |
| TableContents.CollectKeeps | TosLang/Sema/symbolcollector.cpp:67-145 | Entries are never changed or removed, and a visit that counts no error has entered every declaration of its tree |
| TableContents.RecordedIsDeclared | TosLang/Sema/symbolcollector.cpp:67-145 | A table that records all declarations of a tree and nothing else says what the tree declares |
| SymbolCollector.SymbolCollector.VisitPreOrder | TosLang/Common/astvisitor.h:52-67 | The traversal changes the state as `Collect` says |
| SymbolCollector.SymbolCollector.Prologue | TosLang/Sema/symbolcollector.cpp:20-35 | A compound statement opens a scope with a new id |
| SymbolCollector.SymbolCollector.Epilogue | TosLang/Sema/symbolcollector.cpp:37-51 | And leaves it, without taking the id back |
| SymbolCollector.SymbolCollector.HandleFunctionDecl | TosLang/Sema/symbolcollector.cpp:67-100 | The function is entered under its name, return type and parameter types, or an error counted |
| SymbolCollector.SymbolCollector.HandleParamVarDecl | TosLang/Sema/symbolcollector.cpp:102-123 | Each parameter is entered under the next scope id, or an error counted |
| SymbolCollector.SymbolCollector.HandleVarDecl | TosLang/Sema/symbolcollector.cpp:125-145 | A variable is entered under the id of the scope opened last |
| SymbolCollector.SymbolCollector.HandleCallExpr | TosLang/Sema/symbolcollector.cpp:147-157 | An error is counted exactly when no function has the name |
| SymbolCollector.SymbolCollector.HandleIdentifierExpr | TosLang/Sema/symbolcollector.cpp:159-169 | The use is bound along the path of open scopes, or an error counted |
| TypingExpressions.ReadsDeclarations | TosLang/Sema/typechecker.cpp:96-134 | What the checker reads off the symbol table (types of variables and of uses, results and parameters of functions) is what the table declares |
| TypingExpressions.ResultIsOperationType | TosLang/Sema/typechecker.cpp:316-323 | Of all seventeen operations, EQUAL, GREATER_THAN and LESS_THAN have a boolean and every other the type of its operands, by the rules and in the checker |
| TypingVerdict.VerdictIsTyping | TosLang/Sema/typechecker.cpp:47-76 | For every program, with calls anywhere in its expressions (no spawned calls, nulls or error nodes inside expressions), every table the collector can fill, every order of iteration and whatever variables hold that are not set: the checker counts no error and does not break down if and only if the program is well typed by the rules as coded; then the type of every expression that is no call is recorded, and every call is bound to a function that it may mean and that returns what is asked for |
| TypingIntent.VerdictIsIntended | TosLang/Sema/typechecker.cpp:47-76 | The same by the rules as intended, for every such program in which calls are not inside operations, arrays or indices, nothing is indexed, operations are on operands whose type is looked up, functions given calls take what they return, and sleeps count what can only be a number |
| TypingBreakdown.BreakdownExactly | TosLang/Sema/typechecker.cpp:47-166 | For every such program: the run ends in a failed assertion, a failed lookup or a null dereference if and only if `NodeBreaks`; it counts an error instead if and only if the program is neither well typed nor breaks it |
| TypingBreakdown.BareReturnBreaks | TosLang/Sema/typechecker.cpp:480-507 | A return without a value breaks the checker down if and only if it is not in a function that returns nothing |
| TypingBreakdown.BareReturnProgramBreaks | TosLang/Sema/typechecker.cpp:499-506 | A concrete program, of one function that returns a number and ends in a bare return, that breaks the checker down |
| TypingBreakdown.MixedArrayBreaks | TosLang/Sema/typechecker.cpp:85-85 | A concrete program that does: `var a: Int[2] = {1, True};` |
| TypingBreakdown.CallElementBreaks | TosLang/Sema/typechecker.cpp:242-255 | Another: `var a: Int[1] = {f()};`, whatever `f` is |
| TypingBreakdown.MismatchedOperandBreaks | TosLang/Sema/typechecker.cpp:286-286 | A concrete program that does: `var b: Int = 1 + True + 2;` |
| Compiler.Compiler.GetSymbolTable | TosLang/Execution/compiler.cpp:105-116 | Collecting and then type checking: a program passes both only if scoping and late variables let it, as above; one of those the typing verdict covers passes exactly when it is well typed besides under the bindings the collector made; when variables come before blocks, exactly when it is lexically well scoped and well typed, by the rules as intended if it is one of those `VerdictIsIntended` is for; the types of variables and functions are those declared in the tree |
| TypeChecker.TypeChecker.Run | TosLang/Sema/typechecker.cpp:47-76 | The run ends in the state `Checked` describes; hence the verdict above |
| TypingVerdict.NodeVisited | TosLang/Common/astvisitor.h:30-45 | Visiting any statement or declaration: it is well typed exactly when nothing new is wrong and no call in it is left ambiguous |
| TypingVisits.SimpleVisited | TosLang/Sema/typechecker.cpp:228-444 | Visiting any expression records the types the rules give it and its parts, leaves every call in it exactly the functions it may mean, and an index that is a call bound to one of them that returns a number; or it finds something wrong, if the rules give the expression no type or meaning |
| TypingExpressions.PartsEvaluate | TosLang/Sema/typechecker.cpp:228-444 | An expression with a type or meaning has parts with a type or meaning |
| TypingVisits.ArrayHandled | TosLang/Sema/typechecker.cpp:228-256 | An array is typed exactly when it is not empty and its elements, none of them a call, share a scalar type |
| TypingVisits.BinaryHandled | TosLang/Sema/typechecker.cpp:263-324 | An operation is typed exactly when what its operands count as is the same and only identifiers are assigned to; its type is then the one the rules give operations, boolean for the three comparisons and that of the operands for all others |
| TypingVisits.IndexedHandled | TosLang/Sema/typechecker.cpp:429-444 | An index expression is typed exactly when its index may be a number, to which a call is then bound, and what is indexed has a type |
| TypingCalls.CallHandled | TosLang/Sema/typechecker.cpp:326-408 | For every table, order and call whose arguments were visited: the overload set left is exactly the functions of that name and number of parameters whose parameters have the types of the arguments that are no calls and whose result each argument that is a call may return, each once; it is empty exactly when an error is counted |
| TypingCalls.SimpleChecked | TosLang/Sema/typechecker.cpp:78-166 | A check against a type is positive exactly when the expression may have it; a call is then bound to a function it may mean that returns the type, the only one if no argument is a call |
| TypingCalls.MeaningIsUnique | TosLang/Sema/symboltable.cpp:19-42 | Two functions that a call may mean and that return the same are one and the same, if no argument is a call |
| NestedVerdict.BindingFollowsOrder | TosLang/Sema/typechecker.cpp:96-134 | Otherwise not: with `f(Int)` and `f(Bool)`, both boolean, `f(g())` is bound to the one the iteration over the table meets first, although `g` is boolean |
| TypingCalls.EntryIsItself | TosLang/Sema/symboltable.cpp:81-96 | Looking a function symbol up finds its own entry |
| TypingSoundness.SimpleSettles | TosLang/Sema/typechecker.cpp:56-74 | After a visit nothing is left ambiguous if and only if every call in the expression has one candidate, indices aside: a call is not resolved by its place inside an expression |
| TypingSoundness.AnyVisited | TosLang/Sema/typechecker.cpp:56-74 | An expression in a place that asks for no type is in order exactly when it has a type or meaning and every call in it means one function only |
| TypingSoundness.AskedVisited | TosLang/Sema/typechecker.cpp:78-166 | One in a place that asks for a type is in order exactly when it may have the type and every call inside it means one function only |
| TypingVerdict.VarVisited | TosLang/Sema/typechecker.cpp:168-226 | An initializer is accepted exactly when it has the declared type and, for an array, the declared length; the type of an indexed initializer is not compared |
| TypingVerdict.ReturnVisited | TosLang/Sema/typechecker.cpp:480-507 | A return is accepted exactly when it gives what the function is declared to return |
| TypingVerdict.BranchVisited | TosLang/Sema/typechecker.cpp:468-531 | A condition is accepted exactly when it is boolean, whatever the body, which is visited in between |
| TypingFrames.VisitFrames | TosLang/Common/astvisitor.h:30-45 | Visiting a subtree changes nothing recorded for nodes outside it |
| TypingVerdict.FinishBinds | TosLang/Sema/typechecker.cpp:56-74 | The last step binds every call that has one candidate left and keeps the other bindings |
| NestedVerdict.RightExactly | TosLang/Sema/typechecker.cpp:383-390 | The candidates are the properly typed ones if and only if, for every function that takes the other arguments, the inner calls may return its result type just when they may return the types of its parameters |
| NestedVerdict.RightInEveryProgram | TosLang/Sema/typechecker.cpp:383-390 | For a declared result and parameter types: calls with inner calls at given places are judged rightly in every program if and only if the parameter type at each of the places is the result type |
| NestedVerdict.RightAtEveryDepth | TosLang/Sema/typechecker.cpp:383-390 | If every function that a call in it may be for takes what it returns wherever it is given a call, an expression is judged rightly at every depth |
| NestedVerdict.RightCallIsVisited | TosLang/Sema/typechecker.cpp:326-408 | And then a visit leaves exactly the properly typed candidates, or finds something wrong when there are none |
| NestedVerdict.TellingJudged | TosLang/Sema/typechecker.cpp:383-390 | For every declaration, a program with a properly typed call that passes exactly when the types at those places are the result type |
| NestedVerdict.NestedCallComparesResults | TosLang/Sema/typechecker.cpp:366-392 | For `f(g())` with `g` boolean: the call passes exactly when `f` returns a boolean and is properly typed exactly when `f` takes one; so wrong calls are accepted and right ones rejected |
| TypingIntent.CallsAgree | TosLang/Sema/typechecker.cpp:366-392 | If every function that a call in it may be for takes what it returns wherever it is given a call, a call means the same by all rules |
| TypingIntent.BinaryRightExactly | TosLang/Sema/typechecker.cpp:281-312 | Whatever the variables for the types of operands hold when they are not set, an operation whose operands were visited is judged by the types of its operands, calls by what they may return: if and only if both operands are operations, identifiers or boolean or number literals |
| TypingIntent.BinaryCompares | TosLang/Sema/typechecker.cpp:281-312 | What is compared: the types of such operands; what the variable holds for calls, strings, arrays and index expressions |
| UncheckedTypes.TextComparisonDepends | TosLang/Sema/typechecker.cpp:281-312 | A concrete program, `var a: Bool = "x" == "y";` for any two texts, which is well typed and passes exactly when the two variables happen to hold the same |
| UncheckedTypes.CallComparisonDepends | TosLang/Sema/typechecker.cpp:281-312 | Another, `fn f() -> Int { return 1; } var a: Bool = f() == 1;`, which passes exactly when the variable for the call happens to hold the type of numbers |
| TypingIntent.ElementsRightExactly | TosLang/Sema/typechecker.cpp:242-255 | An array of calls and of call-free elements that have the same type by all rules gets the type it should have if and only if it has no call for an element or should have no type |
| TypingIntent.IndexTypesDiffer | TosLang/Sema/typechecker.cpp:429-444 | With the type of the whole array for an index expression, an expression whose operands are all looked up gets the type it should have if and only if there is no index expression in it or it has no type either way |
| TypingIntent.IndexedRightExactly | TosLang/Sema/typechecker.cpp:429-444 | Where a type is asked for, an index expression is misjudged if and only if its index is a number and its array has that type or elements of it |
| UncheckedTypes.IndexedAcceptedRightly | TosLang/Sema/typechecker.cpp:182-209 | An indexed initializer is accepted as it should be if and only if it can be given no type, or the elements of its array have the declared type |
| UncheckedTypes.IndexedInitIsAccepted | TosLang/Sema/typechecker.cpp:182-209 | Concrete programs, `var a: S[2]; var b: T = a[0];`: all are accepted, rightly if and only if the elements have type T |
| TypingIntent.SleepRightExactly | TosLang/Common/astvisitor.h:202-267 | A sleep statement is well typed as coded just when it is as the handler that is never called demands, if and only if its count, unless a call inside it is ambiguous, has no type other than number or, for a call, each function it may mean returns a number exactly when it is the only one |
| UncheckedTypes.SleepAcceptedRightly | TosLang/Common/astvisitor.h:202-267 | A visit judges a sleep statement rightly under the same condition |
| UncheckedTypes.TextSleepIsAccepted | TosLang/Common/astvisitor.h:202-267 | A concrete program that sleeps for a text and is accepted |
| TypeChecker.TypeChecker.VisitPostOrder | TosLang/Common/astvisitor.h:30-45 | The traversal changes the state as `Visit` says |
| TypeChecker.TypeChecker.DispatchNode | TosLang/Common/astvisitor.h:202-267 | Each kind of node is handled as `Handle` says; sleep statements are not dispatched |
| TypeChecker.TypeChecker.CheckExprEvaluateToType | TosLang/Sema/typechecker.cpp:78-166 | Answer and state are those of `Check` |
| TypeChecker.TypeChecker.CheckOperands | TosLang/Sema/typechecker.cpp:137-165 | A binary expression without a type is evaluated through both operands |
| TypeChecker.TypeChecker.CheckCall | TosLang/Sema/typechecker.cpp:96-134 | The first candidate that returns the type is bound and the overload set dropped; otherwise an error is counted |
| TypeChecker.TypeChecker.HandleVarDecl | TosLang/Sema/typechecker.cpp:168-226 | New state is that of `HandleVar` |
| TypeChecker.TypeChecker.HandleArrayExpr | TosLang/Sema/typechecker.cpp:228-256 | New state is that of `HandleArray` |
| TypeChecker.TypeChecker.HandleBinaryExpr | TosLang/Sema/typechecker.cpp:263-324 | New state is that of `HandleBinary` |
| TypeChecker.TypeChecker.HandleCallExpr | TosLang/Sema/typechecker.cpp:326-408 | New state is that of `HandleCall`, argument by argument |
| TypeChecker.TypeChecker.HandleIdentifierExpr | TosLang/Sema/typechecker.cpp:410-427 | The identifier gets the type of its declaration |
| TypeChecker.TypeChecker.HandleIndexedExpr | TosLang/Sema/typechecker.cpp:429-444 | The index must be a number; the expression gets the type of the array |
| TypeChecker.TypeChecker.HandleSpawnExpr | TosLang/Sema/typechecker.cpp:456-466 | Only calls can be spawned |
| TypeChecker.TypeChecker.HandleReturnStmt | TosLang/Sema/typechecker.cpp:480-507 | New state is that of `HandleReturn` |
| TypeChecker.TypeChecker.ResolveRemaining | TosLang/Sema/typechecker.cpp:56-74 | Remaining calls are bound or counted, in any order |
| TypeChecking.WithArity | TosLang/Sema/typechecker.cpp:336-341 | Exactly the candidates with that number of parameters remain |
| TypeChecking.WithParameter | TosLang/Sema/typechecker.cpp:358-365 | Exactly the candidates whose parameter has that type remain |
| TypeChecking.FirstReturning | TosLang/Sema/typechecker.cpp:111-115 | Finds a candidate that returns the type if there is one |
| CfgVisitor.CFGVisitor.Visit | TosLang/Common/cfgvisitor.h:37-44 | Both visits end on every graph; what is added to the list of visited blocks and executed is what `Discovers` says, in post-order or order of discovery, which `VisitIsDetermined` shows to leave no choice |
| CfgVisitor.CFGVisitor.RecursiveDFSVisitPostOrder | TosLang/Common/cfgvisitor.h:52-65 | Each block found is executed once, in the order in which the visits return: a block before another found later exactly when, at some point in between, it and all found since had no new successor; an edge to a block executed later or not at all closes a cycle |
| CfgVisitor.CFGVisitor.RecursiveDFSVisitPreOrder | TosLang/Common/cfgvisitor.h:72-85 | The action is executed in order of discovery: each block is the first new successor, in the order of the list, of the latest block before it that has one |
| CfgVisitor.DiscoversExactly | TosLang/Common/cfgvisitor.h:37-85 | A visit finds exactly the blocks that can be reached through blocks not seen before |
| CfgVisitor.VisitIsDetermined | TosLang/Common/cfgvisitor.h:52-85 | The entry, the successor lists and the blocks seen before determine both orders block by block: any two orders that meet the descriptions of a visit are equal |
| VisitOrder.OrdersAreDetermined | TosLang/Common/cfgvisitor.h:52-85 | Depth-first order and post-order, as properties of two lists, leave no choice |
| VisitOrder.FoundContinues | TosLang/Common/cfgvisitor.h:56-62 | The blocks found from the next new successor continue the depth-first order |
| VisitOrder.DoneContinues | TosLang/Common/cfgvisitor.h:56-62 | The blocks finished from it continue the post-order: those of one successor all before those of the next |
| VisitOrder.VisitIsContiguous | TosLang/Common/cfgvisitor.h:56-62 | What is found during the visit of one block is found contiguously, and finished contiguously right before that block |
| VisitOrder.StartFinishesLast | TosLang/Common/cfgvisitor.h:64-64 | The block a visit starts from is executed last in post-order |
| CfgVisitor.FirstVisitExecutesReachable | TosLang/Common/cfgvisitor.h:37-85 | With an empty list the action is executed exactly once on every reachable block and on no other |
| CfgVisitor.LateSuccessorClosesCycle | TosLang/Common/cfgvisitor.h:52-65 | A successor executed after its predecessor leads back to it |
| CfgVisitor.AcyclicPostOrder | TosLang/Common/cfgvisitor.h:52-65 | On an acyclic graph whatever can be reached from a block is executed before it |
| CfgVisitor.VisitingAgain | TosLang/Common/cfgvisitor.h:37-44 | The list of visited blocks is not cleared: every block is still visited at most once if and only if the entry was not in the list |
| ControlFlowGraph.ControlFlowGraph.CreateNewBlock | TosLang/CFG/controlflowgraph.h:32-43 | A block without branches is added at the end, and no other changes |
| ControlFlowGraph.ControlFlowGraph.InsertBranch | TosLang/CFG/basicblock.h:75-81 | The branch is added behind those of its block, and no other block changes |
| ControlFlowGraph.ClosedHoldsReachable | TosLang/Common/cfgvisitor.h:52-85 | A set closed under branches holds whatever can be reached from it |
| MachineRuns.ExecuteKeeps | Tostitos/machine/interpreter.cpp:95-110 | Any instruction keeps the stack pointer in range; a store writes only below the stack or in its first two bytes, any other instruction only what it pushes |
| MachineRuns.RunIsSafe | Tostitos/machine/cpu.cpp:118-134 | Over every run the stack pointer stays between start and end of the stack, and nothing at or above its end is ever written |
| MachineRuns.FreshRunIsSafe | Tostitos/machine/cpu.cpp:16-19 | Every run of every program from a new machine is safe in this sense |
| MachineRuns.PushesStayInStack | Tostitos/machine/cpu.cpp:208-226 | Pushes and calls never write outside the stack |
| MachineRuns.FrameIsPreserved | Tostitos/machine/cpu.cpp:177-221 | While the stack pointer stays at or above a level, no instruction changes the stack below it, its first two bytes aside |
| MachineRuns.CallReturns | Tostitos/machine/interpreter.cpp:372-404 | A call, the first of a new machine included, and its return match over any run in between, nested calls included: the stack pointer is back, and execution continues, if it can be jumped there, at the address that the stores in between leave in the return slot; that is the address behind the call if none hits the slot, which is sure from the third byte of the stack up |
| MachineRuns.WordIsTracked | Tostitos/machine/cpu.cpp:177-221 | Over every run in which the stack pointer stays above a word of the stack, that word is what the stores that hit it make of it, store by store; it is unchanged if none does, and none can hit a word from the third byte up |
| MachineRuns.ExecuteHits | Tostitos/machine/cpu.cpp:177-190 | One instruction changes a word below the stack pointer only by a store to its address, which writes it, or just below, which writes its low byte; both need the address to be at most the start of the stack |
| MachineRuns.FirstReturnIsLost | Tostitos/machine/cpu.cpp:177-190 | A concrete program of three instructions that, on every new machine, calls, stores to the start of the stack and returns to address 0 instead of behind the call |
| SaveRestore.PushAllPopAll | Tostitos/machine/interpreter.cpp:511-525 | PUSHALL, anything that leaves memory and stack pointer alone, POPALL: all registers and the stack pointer are restored, and all memory but those 32 bytes is unchanged |
| SaveRestore.PushFromStores | Tostitos/machine/interpreter.cpp:511-515 | PUSHALL stores the registers in order, 32 bytes in all |
| SaveRestore.PopBelowLoads | Tostitos/machine/interpreter.cpp:517-525 | POPALL loads them in reverse |
| SaveRestore.PushFromOverflows | Tostitos/machine/cpu.cpp:208-221 | An overflow is reported exactly when fewer than 32 bytes are free |
| Comparisons.AdditionFlags | Tostitos/machine/cpu.cpp:236-251 | Carry exactly on unsigned overflow; overflow on signed overflow and, against the specification, whenever both operands are negative |
| Comparisons.SubtractionFlags | Tostitos/machine/cpu.cpp:267-276 | Carry exactly on borrow; overflow on signed overflow and, against the specification, whenever the left operand is negative |
| Comparisons.MultiplicationFlags | Tostitos/machine/cpu.cpp:259-265 | Carry exactly when the product does not fit 16 bits |
| Comparisons.DivisionFlags | Tostitos/machine/cpu.cpp:253-257 | Carry exactly when there is a remainder |
| Comparisons.FlagsAreIndependent | Tostitos/machine/cpu.cpp:228-234 | Setting a flag changes no other |
| Comparisons.ConditionsAfterCompare | Tostitos/machine/interpreter.cpp:406-444 | What every condition code decides after a comparison of x and y: Z, NZ, AE, B and BE mean what they are named after; A, G, GE, L and LE do not, and exactly when they hold; so do N, NN, P, O and NO, and code 0xF never holds |
| Comparisons.CompareThenJump | Tostitos/machine/interpreter.cpp:196-206 | A comparison followed by Jx on one of those five codes jumps exactly when the relation holds of the operands |
| Comparisons.AdditionOverflowRightExactly | Tostitos/machine/cpu.cpp:247-250 | The flag means signed overflow of the sum if and only if the operands are not two negative numbers whose sum fits |
| Comparisons.SmallSumOverflows | Tostitos/machine/cpu.cpp:247-250 | A concrete sum that fits and sets the flag: -1 + -1 |
| Comparisons.SubtractionOverflowRightExactly | Tostitos/machine/cpu.cpp:272-275 | The flag means signed overflow of the difference if and only if the left operand is not a negative number from which the right one can be taken |
| Comparisons.SmallDifferenceOverflows | Tostitos/machine/cpu.cpp:272-275 | A concrete difference that fits and sets the flag: 0x8001 - 0 |
| Comparisons.OrdersRightExactly | Tostitos/machine/interpreter.cpp:406-444 | For each of A, G, GE, L and LE, the operands after whose comparison it decides what it is named for |
| Comparisons.OrdersGoWrong | Tostitos/machine/interpreter.cpp:421-440 | For each of them, concrete operands after which it does not |
| InstructionEffects.Adds | Tostitos/machine/interpreter.cpp:160-176 | ADD, opcodes 0x50 to 0x52, in any state: x + y is the result, plus 0x10000 exactly when the carry is set; which register is written, that all others and memory are kept, zero and sign flag by the result, and overflow, all by the bytes at the program counter and the bits of the flag register |
| InstructionEffects.Subtracts | Tostitos/machine/interpreter.cpp:178-194 | SUB, 0x60 to 0x62: y plus the result is x, plus 0x10000 exactly when the carry is set |
| InstructionEffects.Multiplies | Tostitos/machine/interpreter.cpp:263-279 | MUL, 0xA0 to 0xA2: the product modulo 0x10000; carry exactly when that is not the product; overflow kept |
| InstructionEffects.Divides | Tostitos/machine/interpreter.cpp:281-297 | DIV, 0xB0 to 0xB2: y * r <= x < y * r + y; carry exactly when there is a remainder |
| InstructionEffects.LeavesRemainder | Tostitos/machine/interpreter.cpp:299-312 | MOD, 0xD0 to 0xD2: the remainder, less than y; carry and overflow kept |
| InstructionEffects.Ands | Tostitos/machine/interpreter.cpp:208-221 | AND, 0x70 to 0x72: each bit of the result is set exactly when it is in both operands |
| InstructionEffects.Ors | Tostitos/machine/interpreter.cpp:233-246 | OR, 0x80 to 0x82: exactly when it is in one of them |
| InstructionEffects.Xors | Tostitos/machine/interpreter.cpp:248-261 | XOR, 0x90 to 0x92: exactly when it is in one only |
| InstructionEffects.Inverts | Tostitos/machine/interpreter.cpp:314-327 | NOT, 0xE0 to 0xE2: exactly when it is not in the operand; operand and result add up to 0xFFFF |
| InstructionEffects.Negates | Tostitos/machine/interpreter.cpp:329-342 | NEG, 0xF0 to 0xF2: operand and result add up to 0 modulo 0x10000 |
| InstructionEffects.ShiftsLeft | Tostitos/machine/interpreter.cpp:541-567 | SHL, 0xC0 and 0xC3: the operand times a power of two, modulo 0x10000; the count is the third operand or a register |
| InstructionEffects.ShiftsRight | Tostitos/machine/interpreter.cpp:548-574 | SHR, 0xC1 and 0xC4: the operand over a power of two, rounded down |
| InstructionEffects.ShiftsArithmetically | Tostitos/machine/interpreter.cpp:555-581 | SAR, 0xC2 and 0xC5: the same on the two's complement readings |
| InstructionEffects.Compares | Tostitos/machine/interpreter.cpp:196-206 | CMP, 0x63 and 0x64: only the flags change, to those of the difference |
| InstructionEffects.Tests | Tostitos/machine/interpreter.cpp:223-231 | TST, 0x73 and 0x74: only the flags change, to those of the word whose bits are set in both operands |
| InstructionEffects.BinaryOpcodes | Tostitos/machine/interpreter.cpp:41-84 | Which opcodes are which of the eight operations on two operands, and that the low digit is the mode |
| WordBits.BitsDetermine | Tostitos/machine/interpreter.cpp:208-261 | A word is determined by its bits |
| WordBits.NotBits | Tostitos/machine/interpreter.cpp:314-327 | Taking a word from 0xFFFF inverts each of its bits |
| TransferEffects.StepsExactly | Tostitos/machine/interpreter.cpp:95-110 | The next instruction has a meaning if and only if it does not divide by zero nor shift by a register of 32 or more |
| TransferEffects.Jumps | Tostitos/machine/interpreter.cpp:346-388 | JMP, JMC, JME and Jx by opcode and bytes: when they jump, where to, what is reported of a target above 0xFDF0, and that nothing else changes |
| TransferEffects.ConditionIsMet | Tostitos/machine/interpreter.cpp:406-444 | Each condition code asks of the flag register what the bit operations of the source do |
| TransferEffects.Calls | Tostitos/machine/interpreter.cpp:372-404 | CALL and Cx: the address behind the call is pushed low byte first, or the overflow reported, and the jump is made in both cases |
| TransferEffects.Returns | Tostitos/machine/interpreter.cpp:378-383 | RET jumps to the word below the stack pointer; both errors are reported together |
| TransferEffects.PushesAndPops | Tostitos/machine/interpreter.cpp:499-537 | PUSH, POP, PUSHF and POPF, bytes in memory included |
| TransferEffects.SavesAll | Tostitos/machine/interpreter.cpp:511-515 | PUSHALL with room for it: the registers lie on the stack in ascending order, two bytes each, and nothing else in memory changes |
| TransferEffects.RestoresAll | Tostitos/machine/interpreter.cpp:517-525 | POPALL: they are taken off in descending order |
| TransferEffects.Copies | Tostitos/machine/interpreter.cpp:448-481 | LDI to registers and stack pointer, and MOV |
| TransferEffects.Loads | Tostitos/machine/interpreter.cpp:458-474 | LDM: the word at the address, low byte first; from the stack nothing is loaded, which only the first form reports |
| TransferEffects.Stores | Tostitos/machine/interpreter.cpp:585-597 | STM: the two bytes at the address and no others change, up to the start of the stack |
| TransferEffects.Draws | Tostitos/machine/interpreter.cpp:487-495 | RND leaves a number up to the immediate value, and any of these can come |
| TransferEffects.Idles | Tostitos/machine/interpreter.cpp:95-110 | NOP does nothing; exactly the opcodes without handler report an unknown opcode |
| TransferEffects.LoadsProgram | Tostitos/machine/cpu.cpp:64-74 | A program that fits is copied to the start of memory and nothing behind it changes; an empty or too large one is refused |
| Interpreter.Interpreter.InterpretOne | Tostitos/machine/interpreter.cpp:95-110 | One step of the machine is the function `Step` |
| Interpreter.Interpreter.Dispatch | Tostitos/machine/interpreter.cpp:10-93 | Every opcode is executed as `Execute` says, unknown ones included |
| Interpreter.Interpreter.FetchInstruction | Tostitos/machine/cpu.cpp:51-62 | The four bytes from the program counter on, which wraps around, are decoded and passed |
| Interpreter.Interpreter.AcquireProgram | Tostitos/machine/interpreter.cpp:143-146 | Only memory changes, as `Loaded` says |
| Interpreter.Interpreter.DirectJMP | Tostitos/machine/interpreter.cpp:346-349 | Jumps, or reports an address above the stack start; the whole new state is given by a function of the old one |
| Interpreter.Interpreter.JMC | Tostitos/machine/interpreter.cpp:351-355 | Jumps on carry; the whole new state is given by a function of the old one |
| Interpreter.Interpreter.Jx | Tostitos/machine/interpreter.cpp:357-362 | Jumps on the condition and does not report a bad address; the whole new state is given by a function of the old one |
| Interpreter.Interpreter.JME | Tostitos/machine/interpreter.cpp:364-370 | Jumps when the registers are equal; the whole new state is given by a function of the old one |
| Interpreter.Interpreter.DirectCALL | Tostitos/machine/interpreter.cpp:372-376 | Pushes the program counter, then jumps; both are attempted; the whole new state is given by a function of the old one |
| Interpreter.Interpreter.RET | Tostitos/machine/interpreter.cpp:378-383 | Pops the program counter; the whole new state is given by a function of the old one |
| Interpreter.Interpreter.IndirectJMP | Tostitos/machine/interpreter.cpp:385-388 | Jumps to a register; the whole new state is given by a function of the old one |
| Interpreter.Interpreter.Cx | Tostitos/machine/interpreter.cpp:390-398 | Calls on the condition; the whole new state is given by a function of the old one |
| Interpreter.Interpreter.IndirectCALL | Tostitos/machine/interpreter.cpp:400-404 | Calls a register; the whole new state is given by a function of the old one |
| Interpreter.Interpreter.RegisterLDI | Tostitos/machine/interpreter.cpp:448-451 | Loads a register; the whole new state is given by a function of the old one |
| Interpreter.Interpreter.StackLDI | Tostitos/machine/interpreter.cpp:453-456 | Sets the stack pointer, replacing the error code; the whole new state is given by a function of the old one |
| Interpreter.Interpreter.DirectLDM | Tostitos/machine/interpreter.cpp:458-465 | Loads from memory; the whole new state is given by a function of the old one |
| Interpreter.Interpreter.IndirectLDM | Tostitos/machine/interpreter.cpp:467-474 | Loads from the address in a register; the whole new state is given by a function of the old one |
| Interpreter.Interpreter.MOV | Tostitos/machine/interpreter.cpp:476-481 | Copies a register; the whole new state is given by a function of the old one |
| Interpreter.Interpreter.RND | Tostitos/machine/interpreter.cpp:487-497 | A number up to the immediate value; the whole new state is given by a function of the old one |
| Interpreter.Interpreter.DirectSTM | Tostitos/machine/interpreter.cpp:585-590 | Stores to memory; the whole new state is given by a function of the old one |
| Interpreter.Interpreter.IndirectSTM | Tostitos/machine/interpreter.cpp:592-597 | Stores to the address in a register; the whole new state is given by a function of the old one |
| Interpreter.Interpreter.PUSH | Tostitos/machine/interpreter.cpp:499-502 | Pushes a register; the whole new state is given by a function of the old one |
| Interpreter.Interpreter.POP | Tostitos/machine/interpreter.cpp:504-509 | Pops a register; the whole new state is given by a function of the old one |
| Interpreter.Interpreter.PUSHALL | Tostitos/machine/interpreter.cpp:511-515 | Pushes all registers, upwards; the whole new state is given by a function of the old one |
| Interpreter.Interpreter.POPALL | Tostitos/machine/interpreter.cpp:517-525 | Pops all registers, downwards; a failed pop writes the value popped last; the whole new state is given by a function of the old one |
| Interpreter.Interpreter.PUSHF | Tostitos/machine/interpreter.cpp:527-530 | Pushes the flags; the whole new state is given by a function of the old one |
| Interpreter.Interpreter.POPF | Tostitos/machine/interpreter.cpp:532-537 | Pops the flags; the whole new state is given by a function of the old one |
| Interpreter.Interpreter.BinaryArithmetic | Tostitos/machine/interpreter.cpp:601-671 | Operation, flags and result in the three operand modes; the whole new state is given by a function of the old one |
| Interpreter.Interpreter.DiscardArithmetic | Tostitos/machine/interpreter.cpp:616-642 | Operation and flags only; the whole new state is given by a function of the old one |
| Interpreter.Interpreter.UnaryArithmetic | Tostitos/machine/interpreter.cpp:673-699 | Operation, flags and result; the whole new state is given by a function of the old one |
| Interpreter.Interpreter.ShiftArithmetic | Tostitos/machine/interpreter.cpp:541-581 | Shifts by an immediate or a register; the whole new state is given by a function of the old one |
| Cpu.CPU.InitMemory | Tostitos/machine/cpu.cpp:64-74 | The program is copied to address 0 unless it is empty or too long; nothing else changes |
| Cpu.CPU.Load | Tostitos/machine/cpu.cpp:163-175 | Reads a word, except inside the stack; nothing else changes |
| Cpu.CPU.Store | Tostitos/machine/cpu.cpp:177-190 | Writes a word up to the start of the stack; nothing else changes |
| Cpu.CPU.Push | Tostitos/machine/cpu.cpp:208-221 | Writes a word at the stack pointer and moves it up, or reports an overflow; nothing else changes |
| Cpu.CPU.Pop | Tostitos/machine/cpu.cpp:192-206 | Moves the stack pointer down and reads a word, or reports an underflow; nothing else changes |
| Cpu.CPU.PushPC | Tostitos/machine/cpu.cpp:223-226 | Pushes the program counter; nothing else changes |
| Cpu.CPU.SetProgramCounter | Tostitos/machine/cpu.cpp:90-102 | Sets it up to the start of the stack; nothing else changes |
| Cpu.CPU.SetStackPointer | Tostitos/machine/cpu.cpp:118-134 | Sets it inside the stack; nothing else changes |
| Cpu.CPU.SetRegister | Tostitos/machine/cpu.cpp:104-116 | Sets one of sixteen registers; nothing else changes |
| Cpu.CPU.SetSignZeroFlag | Tostitos/machine/cpu.cpp:228-234 | Sets both flags from the result; nothing else changes |
| Cpu.CPU.SetCarryOverflowFlagAdd | Tostitos/machine/cpu.cpp:236-251 | Changes the two flags as `AddFlags` says; nothing else changes |
| Cpu.CPU.SetCarryOverflowFlagDiv | Tostitos/machine/cpu.cpp:253-257 | Changes the flag as `DivFlags` says; nothing else changes |
| Cpu.CPU.SetCarryOverflowFlagMul | Tostitos/machine/cpu.cpp:259-265 | Changes the flag as `MulFlags` says; nothing else changes |
| Cpu.CPU.SetCarryOverflowFlagSub | Tostitos/machine/cpu.cpp:267-276 | Changes the two flags as `SubFlags` says; nothing else changes |
| InstructionWord.SetStoredFetched | Tostitos/machine/instruction.cpp:15-104 | From a word with an opcode only, after any calls of the setters, storing and fetching it: the machine decodes that opcode and exactly what was set, as far as the opcode admits it |
| InstructionWord.SettersMerge | Tostitos/machine/instruction.cpp:49-104 | However often and in whatever order the setters are called, no field disturbs another |
| InstructionWord.SetOnce | Tostitos/machine/instruction.cpp:49-80 | An operand set once holds exactly the value given |
| InstructionWord.ImmediateSetOnce | Tostitos/machine/instruction.cpp:82-89 | An immediate value set once is exactly the value given |
| InstructionWord.HeedsByOpcode | Tostitos/machine/instruction.cpp:49-104 | By the number of the opcode alone: an immediate value is heeded exactly when its low digit is 0, a second operand exactly when it is not, and a third when besides the opcode is even or below 0x50 |
| InstructionWord.ImmediateIsDecoded | Tostitos/machine/instruction.cpp:49-89 | Setting a register and an immediate value, storing the word and fetching it: the machine decodes exactly the value if the low digit of the opcode is 0, and 0 otherwise |
| InstructionWord.OperandsAreDecoded | Tostitos/machine/instruction.cpp:49-80 | Setting three operands of an opcode that heeds them, storing and fetching: the machine decodes exactly these |
| InstructionWord.ImmediateModeDecodes | Tostitos/machine/instruction.cpp:82-94 | For every arithmetic instruction that works on an immediate value the machine gets the value set, if and only if it is neither CMPI nor TSTI or the value is 0 |
| InstructionWord.CompareImmediateIsLost | Tostitos/machine/instruction.cpp:82-94 | A concrete instruction: `CMPI R0, 5` is fetched as `CMPI R0, 0` |
| InstructionWord.BasicModeDecodes | Tostitos/machine/instruction.cpp:49-80 | For every arithmetic instruction on three registers the machine gets the registers set |
| InstructionWord.ModesBySetters | Tostitos/machine/interpreter.cpp:41-92 | Which opcodes of each mode the setters serve |
| InstructionWord.ImmediateIsSettable | Tostitos/machine/instruction.cpp:82-94 | Of all instructions that read an immediate value, it cannot be set for RND, JMC, Jx, JME, CALL, Cx, LDI to the stack pointer, LDM, CMPI and TSTI, and for no others |
| InstructionWord.ShiftCountIsSettable | Tostitos/machine/instruction.cpp:71-80 | Of the shifts by a constant, the count can be set for SAR only |
| InstructionWord.DecodeAgrees | Tostitos/machine/instruction.cpp:15-38 | The machine's decoding of the four bytes agrees with the bit-level getters |
| InstructionWord.FetchInvertsStore | Tostitos/machine/cpu.cpp:51-62 | Shifting in the four bytes of a word gives the word |
| InstructionWord.StoreInvertsFetch | Tostitos/machine/cpu.cpp:51-62 | And the word put together from four bytes has those bytes |
| InstructionWord.Instruction.SetFirstOperand | Tostitos/machine/instruction.cpp:49-57 | Adds the bits |
| InstructionWord.Instruction.SetSecondOperand | Tostitos/machine/instruction.cpp:59-69 | Adds the bits unless the instruction has an immediate value |
| InstructionWord.Instruction.SetThirdOperand | Tostitos/machine/instruction.cpp:71-80 | Adds the bits unless the instruction has an immediate value or works in place |
| InstructionWord.Instruction.SetImmediateValue | Tostitos/machine/instruction.cpp:82-89 | Adds the bytes, swapped, if the instruction has an immediate value |
| MemoryRuns.RunIsConsistent | Tostitos/memory/userMemory.cpp:13-39 | Over every run of requests that fit, frees of pointers that were handed out (twice included) and stores into memory that was handed out: blocks lie side by side, headers keep their sizes, and the marked bytes are those of live blocks and what frees left behind |
| MemoryRuns.MarksTellUse | Tostitos/memory/userMemory.cpp:29-39 | The marks are exactly the bytes of live blocks if and only if no block of 256 bytes or more, header included, was freed: freeing reads only the low byte of the size |
| MemoryRuns.OneRequestAndFree | Tostitos/memory/userMemory.cpp:13-39 | From an unused page, one request and the free of its block: no byte stays marked if and only if the block has less than 256 bytes with its header |
| MemoryRuns.FreedInVain | Tostitos/memory/userMemory.cpp:29-39 | A concrete run: after a request for 252 bytes and its free all 256 bytes stay marked |
| MemoryRuns.FreeKeeps | Tostitos/memory/userMemory.cpp:29-39 | A free keeps the invariant |
| MemoryRuns.RequestKeeps | Tostitos/memory/userMemory.cpp:13-27 | A request keeps the invariant |
| MemoryRuns.StoreKeeps | Tostitos/memory/userMemory.cpp:13-27 | A store into a block touches no header |
| MemoryRuns.OthersKeepTheirData | Tostitos/memory/userMemory.cpp:13-39 | No call changes what another owner stored |
| MemoryRuns.BlocksAreDisjoint | Tostitos/memory/userMemory.cpp:15-26 | No byte belongs to two blocks |
| MemoryRuns.FreeingIsSafe | Tostitos/memory/userMemory.cpp:31-38 | Freeing a pointer that was handed out stays in the page and clears its size modulo 256 |
| MemoryRuns.EncodedDecodes | Tostitos/memory/userMemory.cpp:18-18 | All four bytes of the header give the size |
| UserMemory.Memory.RequestMemory | Tostitos/memory/userMemory.cpp:13-27 | Header, marks and offset change as `Requested` says, and the pointer is behind the header |
| UserMemory.Memory.InvalidateMemory | Tostitos/memory/userMemory.cpp:29-39 | Only marks change, as `Freed` says |
| UserMemory.Memory.StoreInt | Tostitos/memory/userMemory.cpp:18-18 | Four bytes, low byte first, are replaced and no other |

## Left out

- Files, consoles and error messages: lines are records, errors are counts, and errors of reading files are not part of this model.
- Regular expressions of the tree reader: a line is its indentation and a record of what a line of its kind holds. Texts with tabs, newlines or carriage returns, which would break lines apart, are outside `Clean`; `AstRoundTrip.TabInStringIsLost` shows that tabs do harm.
- AstRoundTrip.RoundTripExactly: trees with error nodes are outside, because an error node is not printed as one line.
- Assertions are taken as enabled: where one fails the model says that there is no result (`NoTree`, `Aborted`, `failed`).
- Nodes are identified by their place in the tree, as the path of child indices, where the source uses pointers; memory ownership is left out.
- Lexer.Lexer.GetNextToken: source locations are not modelled in lexer and parser; the trees compared there have none.
- Lexer.Lexer.ReadNumber: the conversion throws on numerals beyond the range of int; the model reads them. No number beyond it is among the programs written down, and negative numbers cannot be written.
- Characters beyond the classic locale, and reading one character behind the end of the buffer, which is taken to be a null character.
- ParserRoundTrip.RoundTripExactly: indexing, spawn, sync, comments and array-typed parameters and results are not among the programs written down; the parser model still covers them, and gives up where the source loops or dereferences null. `CommentedBlocks.CommentsChangeNothing` adds comments inside blocks.
- Symbols of type ERROR, whose accessors assert, and the collector's pointer to the current function, which nothing reads.
- The type checker's record of open scopes, which nothing reads.
- SymbolCollector.SymbolCollector.Run: a function whose opening brace is missing has a null body (TosLang/Parse/parser.cpp:163-165); such programs are outside. Its parameters would be entered under the id that the next compound statement gets.
- TypingVerdict.VerdictIsTyping: programs with spawned calls, null pointers or error nodes inside expressions, or null pointers for conditions or operands of scan and sleep, are outside; null pointers and error nodes in place of declarations and statements are inside.
- AstReading.MatchesFunction: names of functions are words; the regular expression of the source could also match names with spaces in them, which no lexer yields.
- Compiler.Compiler.GetSymbolTable: programs outside the typing verdict pass only if the scoping condition holds; no more is stated of them.
- TypeChecker.TypeChecker.Run: the verdict is for the programs of `TypingVerdict.VerdictIsTyping`; the state is that of `Checked` for all.
- The checker's traversal after a failure: the source throws, the model stops changing its state.
- Iterating over a hash map: any order, the same one as long as the table does not change, is a parameter.
- Blocks of control flow graphs are positions in a list; instructions in blocks are left out.
- `Reset` of the machine, which leaves the stack pointer at 0, ROM files and their header, stepping back and hexadecimal dumps.
- Undefined behaviour of the machine is a precondition (`CanStep`): division by zero, shifts of 32 and more by a register. A load from the last address reads past the end of memory; any byte is read there. Products of two words, which overflow a signed int, are taken to wrap. The value of RND and what a failed pop or load leaves in a variable are a parameter, any value.
- UserMemory.Memory.RequestMemory: requests that do not fit the page, which the source does not check and for which it writes past its end, are outside.
- UserMemory.Memory.InvalidateMemory: pointers that were never handed out, from which the source would read before or past the page, are outside unless their header lies in it.
- Sizes of user memory are stored low byte first, as on the machines the system is built for.
- Predicates of instructions that nothing in the model uses (TosLang's instruction selector does).
- Code generation, the LLVM back end and SSA construction, which are not built or not finished; the kernel, the scheduler, threads, the disk with its timing and the command line.
