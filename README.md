# A verified model of a Pascal-subset lexer, parser and pseudocode generator

The modelled system reads a small subset of Pascal and works in three stages:

- **The lexer** (`Lexer`) turns the program text into a list of tokens. It
  skips whitespace and `{ ... }` comments, and it reads integer and real
  literals, identifiers, the upper-case reserved words (`PROGRAM`, `VAR`,
  `DIV`, `INTEGER`, `REAL`, `BEGIN`, `END`), operators and punctuation. The
  list ends with an `EOF` token.
- **The recursive-descent parser** (`Parser`) builds an abstract syntax tree
  from the tokens. The tree has a program heading, a block, `VAR`
  declarations, compound statements, assignments, and expressions with the
  usual precedence and left associativity. `*`, `/` and `DIV` bind tighter
  than `+` and `-`.
- **The pseudocode generator** (`PseudoCodeGenerator`) prints the tree as
  `DECLARE x AS INTEGER` lines and `x := (a + b)` lines.

## How the project is laid out

- `wrappers.dfy`: the `Option`, `Result` and `Outcome` wrappers.
- `text.dfy`: character classes, and the length of a run of characters.
- `tokens.dfy`: the token types, the `Token` record and how a token prints.
- `ast.dfy`: the tree node classes as one datatype, with predicates for the
  shapes the parser builds.
- `scanning.dfy`: the lexer as pure functions. `NextToken` reads one token.
  `Tokenize` reads the whole text.
- `lexing.dfy`: the `Lexer` class, method for method. It has the source's
  fields and loops, and each method is proved against the functions in
  `scanning.dfy`.
- `grammar.dfy`: the parser as pure functions over a token list and a
  cursor, with one function per parser method.
- `parsing.dfy`: the `Parser` class, method for method. Each method is proved
  to agree with the matching function in `grammar.dfy`.
- `pseudocode.dfy`: `generate` and the properties of its output.
- `unlexing.dfy`: prints a token list back as text, and proves that the lexer
  reads exactly those tokens back.
- `grammar_facts.dfy`: properties of the grammar. They cover precedence,
  associativity, the unary rewrite, declaration lists, statement lists and
  trailing input.
- `program_facts.dfy`: printing any well-formed program tree as tokens and
  parsing it gives the same tree back.
- `rendering.dfy`: what `generate` prints for parsed input. It covers the
  DECLARE lines of a declaration list, an assignment line, and a worked
  program with a unary minus, from its tokens to its output.
- `pipeline.dfy`: the end-to-end property. A program printed as text is
  lexed and parsed back to the same tree, and that tree can be rendered.

In the `Grammar` functions, the cursor `k` is the index of the parser's
current token. In the `Parser` class, `position` is the index of the next
token to read. The two always satisfy `k == position - 1`.

Errors become values. The lexer's exceptions are `LexError` values and the
parser's are `ParseError` values: each `throw` becomes a `Failure`. The
value records what the failure was about, which can be more than the message
prints. `UnknownToken` also records the position, and `UnexpectedEnd` records
the type of the token that was found instead of EOF.

## Model

| member | source | states |
|---|---|---|
| Lexing.Lexer.constructor | Lexer/Lexer.php:37-50 | The cursor starts at 0 on the first character, and the reserved-word table holds the seven upper-case keywords. |
| Lexing.Lexer.MoveCode | Lexer/Lexer.php:75-90 | Advances one character. The new current character is the one at the new position, or none past the end. |
| Lexing.Lexer.Choose | Lexer/Lexer.php:244-256 | Returns the character after the current one, or none at the end, and moves nothing. |
| Lexing.Lexer.SkipWhitespace | Lexer/Lexer.php:93-100 | Stops at the first non-space character at or after the cursor. |
| Lexing.Lexer.SkipComment | Lexer/Lexer.php:103-109 | Moves just past the first `}`. With no `}` left it reports an unterminated comment. |
| Lexing.Lexer.Number | Lexer/Lexer.php:112-141 | Returns the token and the end cursor that `ScanNumber` specifies: INTEGER_CONST for a digit run, REAL_CONST for digits, a dot and digits. |
| Lexing.Lexer.DigitRun | Lexer/Lexer.php:118-123 | The digit loop stops at the end of the digit run, and the collected text is exactly the characters passed over. |
| Lexing.Lexer.Id | Lexer/Lexer.php:259-282 | Returns the token and the end cursor that `ScanId` specifies: a reserved-word token for a table key, otherwise an ID token carrying the word. |
| Lexing.Lexer.GetNextToken | Lexer/Lexer.php:144-241 | Returns the token `NextToken` gives at the old cursor and leaves the cursor where `NextToken` puts it. It fails exactly when `NextToken` fails, with the same error. |
| Lexing.Lexer.SkipAny | Lexer/Lexer.php:147-234 | The loop's two skipping branches, whitespace (lines 150-153) and `{` comments (lines 230-234), move the cursor forward without changing the next token. An unterminated comment is the lexer's error. |
| Lexing.Lexer.ReadToken | Lexer/Lexer.php:156-237 | Each token-reading branch of the loop agrees with `NextToken`, including the unknown-character error. |
| Lexing.Lexer.ReadSymbol | Lexer/Lexer.php:162-227 | Every one-character symbol, and `:=`, always succeeds and agrees with `NextToken`. |
| Lexing.Lexer.GetTokens | Lexer/Lexer.php:53-72 | Returns `Tokenize` of the text from the old cursor. On success that is a list ending in its only EOF token. |
| Scanning.ScanNumber | Lexer/Lexer.php:112-141 | A number token's text is exactly the characters it consumes. |
| Scanning.ScanId | Lexer/Lexer.php:259-282 | A word token's text is exactly the characters it consumes. |
| Scanning.CommentEnd | Lexer/Lexer.php:103-109 | The end of a comment is just past the first `}`. There is none when no `}` follows. |
| Scanning.NextToken | Lexer/Lexer.php:144-241 | The next token is EOF, with the cursor at the end of the text, or its text is exactly the characters just before the new cursor. It is never FLOAT_DIV. |
| Scanning.Lex | Lexer/Lexer.php:53-72 | A successful token list ends in an EOF token with no value, and holds no EOF before it. |
| Scanning.Tokenize | Lexer/Lexer.php:53-72 | A successful token list is non-empty, has EOF last and has no EOF before that. |
| Scanning.TokenizeStep | Lexer/Lexer.php:61-69 | One loop step: a lexer error stops the list, EOF ends it, and any other token is put before the rest. |
| Scanning.IntegerLiteral | Lexer/Lexer.php:118-128 | A digit run not followed by a digit or a dot lexes as one INTEGER_CONST with exactly those digits. |
| Scanning.RealLiteral | Lexer/Lexer.php:118-141 | Digits, a dot and a digit run lex as one REAL_CONST with that text. |
| Scanning.ScanReal | Lexer/Lexer.php:126-141 | When a dot follows the first digit run, the token is REAL_CONST up to the end of the second digit run. |
| Scanning.DigitStartsNumber | Lexer/Lexer.php:156-159 | A digit at the cursor starts a number. |
| Scanning.Word | Lexer/Lexer.php:193-195 | A maximal letter-then-alphanumeric word lexes as its reserved-word token when it is a table key, otherwise as an ID carrying the word. |
| Scanning.LowerCaseKeywordIsId | Lexer/Lexer.php:275-281 | The reserved-word lookup is case-sensitive, so `begin` is an ID. |
| Scanning.ColonOrAssignment | Lexer/Lexer.php:198-217 | `:` followed by `=` is ASSIGNMENT `:=`. Any other `:` is COLON. |
| Scanning.SlashIsOperator | Lexer/Lexer.php:177-180 | `/` always lexes as OPERATOR. The later FLOAT_DIV branch at lines 219-222 cannot be reached. |
| Scanning.SkipsWhitespace | Lexer/Lexer.php:150-153 | A run of whitespace does not change the next token. |
| Scanning.SkipsComment | Lexer/Lexer.php:230-234 | A comment up to its first `}` does not change the next token. |
| Scanning.UnterminatedCommentFails | Lexer/Lexer.php:103-109 | A `{` with no `}` after it is an unterminated-comment error. |
| Scanning.UnknownCharacter | Lexer/Lexer.php:237 | Any character that is not recognised is an unknown-token error. The error value holds the character, which the message prints, and its position, which the message does not. |
| Scanning.EofIsIdempotent | Lexer/Lexer.php:240 | EOF has no value, and asking again at the end gives EOF again. |
| Unlexing.LexUnlex | Lexer/Lexer.php:53-72 | Lexing the space-separated spellings of any tokens the lexer can produce gives exactly those tokens, followed by EOF. |
| Tokens.ToString | Lexer/Token.php:22-25 | No contract of its own. What the printed form determines is stated by `DecodeToString` and `ToStringInjective`. |
| Tokens.DecodeToString | Lexer/Token.php:22-25 | The printed form `Token(TYPE, value)` determines the type and the printed value. A null value prints as the empty string. |
| Tokens.ToStringInjective | Lexer/Token.php:22-25 | Two tokens print the same if and only if they have the same type and the same printed value. |
| Parsing.Parser.constructor | Parser/Parser.php:28-32 | The current token is the first token and the cursor is just after it. |
| Parsing.Parser.GetNextToken | Parser/Parser.php:35-43 | Returns the token at the cursor and advances the cursor. Past the end it returns none and changes nothing. |
| Parsing.Parser.Analyze | Parser/Parser.php:377-389 | On a current token of the expected type it moves one token on. Otherwise it reports the expected and the found types and does not move. |
| Parsing.Parser.Factor | Parser/Parser.php:46-94 | Agrees with `Grammar.Factor`: the tree and the new cursor on success, the error on failure. |
| Parsing.Parser.Parenthesised | Parser/Parser.php:66-71 | `( expression )` agrees with `Grammar.Factor`. |
| Parsing.Parser.UnaryOperation | Parser/Parser.php:73-90 | An OPERATOR token in factor position, whatever its value, gives `0 op factor` as `Grammar.Factor` does. |
| Parsing.Parser.Term | Parser/Parser.php:97-126 | Agrees with `Grammar.Term`. |
| Parsing.Parser.MultiplyBy | Parser/Parser.php:104-123 | One turn of the `*` `/` DIV loop keeps the result of the rest of the loop (`Grammar.TermTail`) unchanged and moves the cursor forward. |
| Parsing.Parser.Expression | Parser/Parser.php:129-151 | Agrees with `Grammar.Expression`. |
| Parsing.Parser.AddTo | Parser/Parser.php:135-148 | One turn of the `+` `-` loop keeps the result of the rest of the loop (`Grammar.ExpressionTail`) unchanged and moves the cursor forward. |
| Parsing.Parser.Variable | Parser/Parser.php:276-287 | Agrees with `Grammar.Variable`: an ID token becomes a Variable node. |
| Parsing.Parser.AssignmentStatement | Parser/Parser.php:256-273 | Agrees with `Grammar.AssignmentStatement`: a variable, `:=` and an expression. |
| Parsing.Parser.Empty | Parser/Parser.php:371-374 | The empty statement is a NoOperation node. |
| Parsing.Parser.CompoundStatement | Parser/Parser.php:194-206 | Agrees with `Grammar.CompoundStatement`: BEGIN, a statement list and END. |
| Parsing.Parser.Statement | Parser/Parser.php:232-253 | Agrees with `Grammar.Statement`: compound on BEGIN, assignment on ID, otherwise empty. |
| Parsing.Parser.StatementList | Parser/Parser.php:209-229 | Agrees with `Grammar.StatementList`, including the error for an ID after a statement. |
| Parsing.Parser.NextStatement | Parser/Parser.php:216-221 | One turn of the `;` loop keeps the result of the rest of the list (`Grammar.StatementListTail`) unchanged and moves the cursor forward. |
| Parsing.Parser.TypeSpecification | Parser/Parser.php:354-368 | Agrees with `Grammar.TypeSpecification`: INTEGER or REAL becomes a Type node, and anything else is an error expecting REAL. |
| Parsing.Parser.VariableDeclarations | Parser/Parser.php:321-351 | Agrees with `Grammar.VariableDeclarations`. |
| Parsing.Parser.IdentifierList | Parser/Parser.php:332-337 | The comma loop agrees with `Grammar.IdentifierList`. |
| Parsing.Parser.NextVariable | Parser/Parser.php:334-336 | One turn of the comma loop keeps the result of the rest of the loop unchanged and moves the cursor forward. |
| Parsing.Parser.TypedDeclarations | Parser/Parser.php:340-348 | `: type` and the declarations agree with `Grammar.TypedDeclarations`. |
| Parsing.DeclareEach | Parser/Parser.php:346-348 | The loop builds one declaration per variable, in order, all sharing the same type node. |
| Parsing.Parser.Declarations | Parser/Parser.php:301-318 | Agrees with `Grammar.Declarations`. With no VAR there are no declarations and the cursor does not move. |
| Parsing.Parser.NextGroup | Parser/Parser.php:310-315 | One declaration group and its `;` keep the result of the rest of the loop unchanged and move the cursor forward. |
| Parsing.Parser.Block | Parser/Parser.php:290-298 | Agrees with `Grammar.Block`: declarations, then a compound statement. |
| Parsing.Parser.ProgramHeading | Parser/Parser.php:173-180 | `PROGRAM name ;` agrees with `Grammar.ProgramHeading`. |
| Parsing.Parser.Program | Parser/Parser.php:170-191 | Agrees with `Grammar.Program`: the heading, a block and `.`. |
| Parsing.Parser.Parse | Parser/Parser.php:154-167 | The result is `Grammar.Parse` of the tokens. On success the whole list has been read and the current token is EOF. |
| Grammar.Advance | Parser/Parser.php:35-43 | The cursor stays where it is only on the last token. |
| Grammar.Expect | Parser/Parser.php:377-389 | Succeeds if and only if the current token has the expected type. On failure the error names both types. |
| Grammar.Variable | Parser/Parser.php:276-287 | Succeeds if and only if the current token is an ID, and then gives its Variable node one token on. |
| Grammar.Factor | Parser/Parser.php:46-94 | A factor consumes at least one token and gives an expression tree. |
| Grammar.TermTail | Parser/Parser.php:104-123 | The `*` `/` DIV loop never moves the cursor back and gives an expression tree. |
| Grammar.Term | Parser/Parser.php:97-126 | A term consumes at least one token and gives an expression tree. |
| Grammar.ExpressionTail | Parser/Parser.php:135-148 | The `+` `-` loop never moves the cursor back and gives an expression tree. |
| Grammar.Expression | Parser/Parser.php:129-151 | An expression consumes at least one token and gives an expression tree. |
| Grammar.AssignmentStatement | Parser/Parser.php:256-273 | An assignment consumes at least one token and gives an Assignment statement. |
| Grammar.CompoundStatement | Parser/Parser.php:194-206 | A compound statement consumes at least one token and gives a Compound statement. |
| Grammar.Statement | Parser/Parser.php:232-253 | A statement never moves the cursor back and gives a statement tree. |
| Grammar.StatementListTail | Parser/Parser.php:216-221 | The loop only appends statements to those already collected. |
| Grammar.StatementList | Parser/Parser.php:209-229 | A statement list holds at least one statement. |
| Grammar.TypeSpecification | Parser/Parser.php:354-368 | Succeeds if and only if the token is INTEGER or REAL, giving a Type node for it. Otherwise the error expects REAL. |
| Grammar.IdentifierList | Parser/Parser.php:332-337 | The comma loop only appends Variable nodes to those already collected. |
| Grammar.TypedDeclarations | Parser/Parser.php:340-348 | On success there is one declaration per collected variable, in the same order. |
| Grammar.VariableDeclarations | Parser/Parser.php:321-351 | A declaration list gives at least one declaration. |
| Grammar.DeclarationGroups | Parser/Parser.php:310-315 | The loop only appends declarations to those already collected. |
| Grammar.Declarations | Parser/Parser.php:301-318 | Without VAR the result is empty and the cursor does not move. |
| Grammar.Block | Parser/Parser.php:290-298 | A block consumes at least one token and gives a Block node. |
| Grammar.ProgramHeading | Parser/Parser.php:173-180 | Succeeds if and only if the tokens are PROGRAM, an ID and `;`. The name is the ID's text. |
| Grammar.Program | Parser/Parser.php:170-191 | A program gives a Program node. |
| Grammar.Parse | Parser/Parser.php:154-167 | Every successful parse is a Program node. |
| GrammarFacts.ExpressionRoundTrip | Parser/Parser.php:97-151 | Printing any `+ - * / DIV` tree with the fewest parentheses and parsing it gives the same tree back. So the parser's trees are the left-associative, precedence-respecting readings of their tokens. |
| GrammarFacts.MultiplicationBindsTighter | Parser/Parser.php:97-151 | `2 + 3 * 4` parses as `2 + (3 * 4)`. |
| GrammarFacts.SubtractionFoldsLeft | Parser/Parser.php:129-151 | `a - b - c` parses as `(a - b) - c`. |
| GrammarFacts.UnaryOperator | Parser/Parser.php:73-90 | Any OPERATOR token where a factor is expected, `*` and `/` included, is read as `0 op factor`. |
| GrammarFacts.UnaryTimes | Parser/Parser.php:73-90 | `* 3` parses as `0 * 3`. |
| GrammarFacts.IdentifierListRoundTrip | Parser/Parser.php:332-337 | `, n1 , n2 ...` gives one Variable node per name, in order. |
| GrammarFacts.DeclarationListShape | Parser/Parser.php:321-351 | `n1, ..., nm : T` gives exactly m declarations, the i-th for the i-th name, all with the same Type node. |
| GrammarFacts.EmptyStatement | Parser/Parser.php:232-253 | A statement that starts with neither BEGIN nor an ID is empty and consumes nothing. |
| GrammarFacts.EmptyCompound | Parser/Parser.php:194-229 | `BEGIN END` holds exactly one empty statement. |
| GrammarFacts.MissingSemicolon | Parser/Parser.php:224-226 | An ID right after a statement is an error. |
| GrammarFacts.TrailingTokensFail | Parser/Parser.php:162-164 | Anything but EOF after a whole program is an error. |
| ProgramFacts.StatementRoundTrip | Parser/Parser.php:232-253 | Printing any well-formed statement as tokens and parsing it gives the same statement, ending just after its tokens. |
| ProgramFacts.CompoundRoundTrip | Parser/Parser.php:194-206 | The same for `BEGIN s1; ...; sn END`. |
| ProgramFacts.ListRoundTrip | Parser/Parser.php:216-221 | The `;` loop reads the remaining statements of a printed list, in order. |
| ProgramFacts.GroupsRoundTrip | Parser/Parser.php:310-315 | The declaration loop reads printed `name : type ;` groups back as the same declarations, in order. |
| ProgramFacts.DeclarationsRoundTrip | Parser/Parser.php:301-318 | A printed VAR section parses back to the same declarations. |
| ProgramFacts.BlockRoundTrip | Parser/Parser.php:290-298 | A printed block parses back to the same Block node. |
| ProgramFacts.ProgramRoundTrip | Parser/Parser.php:154-191 | Any well-formed program tree, printed as tokens and followed by EOF, parses back to exactly that tree. |
| Pipeline.SourceRoundTrip | Parser/Parser.php:154-167 | A well-formed program printed as source text is lexed to its tokens and parsed back to the same tree, and that tree can be rendered. |
| PseudoCode.Generate | Parser/PseudoCodeGenerator.php:9-59 | An operation prints inside its own pair of parentheses. The exact lines for declarations, assignments and a whole program are stated by the `Rendering` lemmas. |
| PseudoCode.ExpressionRenders | Parser/PseudoCodeGenerator.php:38-49 | Every expression tree renders without reaching the unknown-node exception. |
| PseudoCode.StatementRenders | Parser/PseudoCodeGenerator.php:22-53 | Every statement tree renders without reaching the unknown-node exception. |
| PseudoCode.ProgramRenders | Parser/PseudoCodeGenerator.php:55-58 | Every tree the parser returns renders, so the unknown-node exception is never raised for one. |
| PseudoCode.Lines | Parser/PseudoCodeGenerator.php:9-59 | Every renderable node has at least one output line. |
| PseudoCode.GenerateIsJoinedLines | Parser/PseudoCodeGenerator.php:9-59 | The output of `generate` is its list of lines joined with newlines. |
| PseudoCode.SplitJoin | Parser/PseudoCodeGenerator.php:19 | Splitting lines joined with newlines at the newlines gives the same lines back. |
| PseudoCode.RenderedLines | Parser/PseudoCodeGenerator.php:16-19 | A block's output is its declaration lines followed by its statements' lines. |
| PseudoCode.ProgramRendersAsBlock | Parser/PseudoCodeGenerator.php:11-12 | A program prints exactly as its block, whatever its name. |
| PseudoCode.ExpressionBalanced | Parser/PseudoCodeGenerator.php:38-41 | Every operation is printed in its own parentheses, so a printed expression has balanced parentheses. |
| Rendering.DeclarationListRendering | Parser/PseudoCodeGenerator.php:27-28 | `n1, ..., nm : T` parses to declarations that print as `DECLARE ni AS T`, one line per name, in the order of the names. |
| Rendering.AssignmentRendering | Parser/PseudoCodeGenerator.php:31-34 | A parsed assignment prints as the variable's name, ` := ` and the printed expression after `:=`, with no parentheses around the whole. |
| Rendering.UnaryMinusParses | Parser/Parser.php:73-90 | The tokens of `PROGRAM p ; VAR x : INTEGER ; BEGIN x := - 5 ; END .` parse to a tree where `- 5` is `0 - 5` and the `;` before END leaves an empty statement. |
| Rendering.UnaryMinusOutput | Parser/PseudoCodeGenerator.php:9-59 | That tree prints as `DECLARE x AS INTEGER`, `x := (0 - 5)` and a final empty line from the empty statement. |
| Rendering.UnaryMinusRendering | Parser/PseudoCodeGenerator.php:9-59 | From those tokens, parsing and `generate` give exactly `DECLARE x AS INTEGER\nx := (0 - 5)\n`. |

## Left out

- The command-line driver `index.php` is not part of this model. It reads a file, runs the three stages and prints.
- Exceptions are not modelled as PHP exceptions. Each `throw` is a failure value: `UnknownToken(character, position)`, `UnterminatedComment`, `UnexpectedToken(expected, found)`, `MissingSeparator` for the bare `throw new Exception()` after a statement list, and `UnexpectedEnd(found)`. The message strings are not modelled.
- Lexing.Lexer.constructor: requires a non-empty text. The source reads `text[0]` unguarded, and what PHP then does for an empty text is not modelled.
- Lexing.Lexer.MoveCode: requires a current character. The source only moves past the end inside the comment loop on an unterminated comment.
- Scanning.CommentEnd: an unterminated comment is an error in the model. In the source, the comment loop keeps calling `moveCode` forever.
- The `FLOAT_DIV` branch of `getNextToken` (Lexer/Lexer.php:219-222) cannot run, because the earlier `/` branch catches every slash. No token is FLOAT_DIV, and `Scanning.SlashIsOperator` states this.
- Characters are Dafny `char`s and the text is a sequence of them. The source mixes `mb_strlen` with byte indexing, which agree only on ASCII text, and ASCII text is what is modelled.
- The regular expressions for whitespace, digits, letters and letters-or-digits are the predicates `IsSpace`, `IsDigit`, `IsLetter` and `IsAlnum` over ASCII.
- Parsing.Parser.constructor: requires a token list with EOF last and nowhere earlier, which is what the lexer produces. Given that, the parser's `null === currentToken` branches cannot be reached and are not modelled.
- After a failure, the parser's cursor and current token are left unspecified, since the source abandons the parse by throwing.
- Objects are values. Node identity and sharing are not modelled: the single `Type` object that all declarations of one list share becomes equal `Type` values.
- `Assignment` (Parser/Classes/Assignment.php:5) is declared in namespace `Pascal\Parser\AST`, while the parser and the generator name `Pascal\Parser\Classes\Assignment`. The model follows the evident intent, an Assignment node the generator prints as `name := expression`. `Assignment` extends `BinaryOperation`, but the generator tests for `Assignment` first, so that ordering is what is modelled.
- The node classes `Node`, `Number`, `Variable` and `NoOperation`, and the `TokenType` constants, are not part of this model's sources. Their `value` is taken to be the token's value, as their use in the parser and the generator implies.
- The generator's VariableDeclaration line reads the declaration's `var` field, so the model prints the declared variable's name.
- `Parsing.Parser` splits each loop body into its own method, so that each loop step has a contract: `MultiplyBy`, `AddTo`, `NextStatement`, `NextVariable`, `NextGroup`, and `Parenthesised` and `UnaryOperation` for two branches of `factor`. `Lexing.Lexer` does the same with `SkipAny`, `ReadToken`, `ReadSymbol` and `DigitRun`, which mirror `getNextToken`'s loop and `number`'s digit loops.
- Pipeline.SourceRoundTrip: requires every token to be one the lexer can produce from its own text, so identifiers must be words that are not reserved.
- ProgramFacts.ProgramRoundTrip: covers trees whose operator tokens are `+`, `-`, `*`, `/` or DIV, which are all the operators the lexer produces. A tree holding an OPERATOR token with any other value is outside the property.
