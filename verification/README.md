# Filter-expression front end, modelled in Dafny

The filter-expression parser reads a small boolean query language. Examples are
`a = 1 AND NOT (b LIKE 'x%' OR c IS NOT NULL)`, `d BETWEEN 1 AND 5` and
`e IN (1, 2, 3)`. It turns such a query into a tree of node objects.

The model covers the whole front end.

**Lexer.** The model includes:
- the token-kind constants and their codes;
- the lexeme shapes of the four catchable patterns and the two non-catchable ones, written as a scanner;
- `getType`, which classifies a lexeme and unescapes quoted strings.

**Cursor.** The lexer's cursor is its position, its peek offset, and its current and lookahead tokens. The model includes `moveNext`, `peek`, `glimpse`, `resetPeek` and `isNextToken`.

**Parser.** The model includes the recursive-descent parser:
- `match` and `syntaxError`;
- the look past the matching `)`;
- the peek-only dispatch between the five simple conditional expressions;
- every grammar method from `filterLanguage` down to `stringExpression`.

**Nodes.** The AST node classes are one datatype, with their constructors and setters. The setters keep the classes' defaults and parameter type hints.

**Exceptions.** The model includes the three factories of the expression exception.

Every operation is a pure function. Each grammar function takes a cursor and returns `Success(Step(node, cursor'))` or the failure the PHP code would throw. The `Result` type carries that failure, so the absence of any catch is visible: every failure propagates.

**Modules.** Each file is one module.

| Module | Contents |
|---|---|
| `Wrappers` | Option and Result |
| `Tokens` | kinds, codes, constant names |
| `Text` | digits, upper-casing, decimal printing |
| `Lexer` | `getType`, the scanner, `Tokenize` |
| `Cursor` | the lexer's cursor |
| `Exceptions` | the factories and parse errors |
| `Nodes` | the AST |
| `Shapes` | the shapes of trees the parser returns |
| `Parser` | the grammar |

Other modules hold the properties:
- `Lookahead` gives index-based reference definitions of the peeking code.
- `Balance` covers parenthesis depth over printed trees.
- `Printer` is the parser's inverse on tokens.
- `RoundTrip` shows that the parser reads every printed tree back.
- `Positions` shows that the parse result depends on token kinds and texts only, never on positions, so the round trip carries over to lexed text.
- `ParseShapes` proves that every tree the parser returns has the promised shape.
- `Rejections` covers how non-printed inputs fail.
- `Examples` has concrete queries.

**Main results:**
- `RoundTrip.ParsePrinted`: for every tree of the shape the parser produces, parsing its printed tokens returns exactly that tree.
- `Positions.ParseLexed`: the same holds for query text whose tokens equal the printed tokens apart from positions. The parser reads a position only for the column of a syntax-error message (Parser.php:118), and `Positions.FilterLanguageSimilar` proves that the result is otherwise independent of positions. `Examples.ParseAEqualsOne` uses it on the text `a = 1`.
- `ParseShapes.ParseShape`: every successful parse returns such a tree.

Every tree of the parser's shape is therefore the parse of its printed tokens, and every parse result has that shape. The converse does not hold token for token: the parser also accepts lists the printer never writes, such as lower-case keywords or a keyword in place of the AND of a BETWEEN.

Several behaviours of the code are stated as lemmas rather than smoothed away:

- **`match` is lenient.** The code rejects only when all three of these hold:
  - the lookahead kind differs from the requested kind;
  - the requested kind is not IDENTIFIER;
  - the lookahead code is at most 100. An absent lookahead counts as at most 100.

  The doc comment says "if they match"; the model follows the code. A keyword lookahead therefore satisfies any request. As a consequence, `x BETWEEN 1 OR 2` reads as a BETWEEN (`Rejections.BetweenAnyKeyword`, `Examples.BetweenWithOr`).
- **A group must hold an OR node.** `setConditionalExpression` has the parameter type hint `ConditionalExpressionNode`. A parenthesised group that collapses to one term is therefore rejected with the engine's type error, for example `(a = 1)` (`Rejections.GroupedTermRejected`).
- **A doubled NOT fails.** `conditionalFactor` reads one NOT. In the dispatch, the glimpse past the second NOT resets the peek offset. The next peek then shows the identifier again, not the token after it. So `NOT NOT a BETWEEN 1 AND 2` goes down the comparison path and fails, expecting a literal (`Rejections.DoubleNotRejected`, `Examples.DoubleNot`).
- **How `conditionalPrimary` is split in the model.** `Parser.SimplePrimary` is its simple path (lines 317-321 and 328-331). `Parser.GroupedExpression` is its grouped path (lines 333-337).

## Model

| member | source | states |
|---|---|---|
| Tokens.CodeLayout | src/Lexer/Lexer.php:17-41 | Every kind that is never an identifier has a code strictly between 0 and 100. IDENTIFIER alone has code 100. Exactly the ten keywords have codes above 100. |
| Tokens.CodeInjective | src/Lexer/Lexer.php:18-41 | No two kinds share a constant value. |
| Tokens.ConstantNamedRoundTrip | src/Lexer/Lexer.php:92-95 | Looking up the constant `T_` + name of any kind finds that kind. |
| Tokens.ConstantNamed | src/Lexer/Lexer.php:92-95 | A name that resolves to a constant is that constant's name. |
| Tokens.KindLiteral | src/Parser/Parser.php:74 | The name `match` reports for a kind is the lexer class's qualified name, `::T_` and the constant name. Looking up the part after the prefix finds that kind again. |
| Tokens.KindLiteralInjective | src/Lexer/Lexer.php:17-41 | Two kinds are reported under the same name exactly when they are the same kind. |
| Lexer.GetType | src/Lexer/Lexer.php:77-119 | A lexeme is STRING exactly when it starts with a quote. Only then is its value rewritten, to the inner text with every doubled quote made single. Every other lexeme keeps its text. |
| Lexer.GetTypeNumbers | src/Lexer/Lexer.php:82-85 | A numeric lexeme is INTEGER exactly when it is all digits and FLOAT exactly when it is not, i.e. when it holds `.`, `e` or `E` (with NumericShape). |
| Lexer.NumericShape | src/Lexer/Lexer.php:82-85 | A numeric lexeme starts with a digit and is all digits exactly when it contains none of `.`, `e`, `E`. |
| Lexer.GetTypeWords | src/Lexer/Lexer.php:91-102 | A lexeme gets a keyword kind exactly when its upper-cased text names a keyword constant, and that kind's name is the upper-cased text. It is IDENTIFIER exactly when it starts with a letter or `_` and names no keyword. Names of other constants, such as `none` or `comma`, stay identifiers. |
| Lexer.KeywordLookup | src/Lexer/Lexer.php:94-98 | A name is a keyword name exactly when a constant of that name exists and its value is above 100. |
| Lexer.WordKindIsWord | src/Lexer/Lexer.php:91-102 | A word gives IDENTIFIER or a keyword. It gives a keyword exactly when its upper-cased text is a keyword name, and then the kind's constant name is that text. |
| Lexer.GetTypePunctuation | src/Lexer/Lexer.php:104-115 | Exactly the seven single characters `, ( ) = > < !` get the seven punctuation kinds, and each kind maps back to its character. |
| Lexer.GetTypeNone | src/Lexer/Lexer.php:79-118 | A lexeme is NONE exactly when it is not numeric, not quoted, not word-initial and not one of the seven punctuation characters. |
| Lexer.KindIgnoresCase | src/Lexer/Lexer.php:82-102 | Upper-casing a lexeme never changes its kind. |
| Lexer.UnescapeEscape | src/Lexer/Lexer.php:89 | Collapsing doubled quotes undoes doubling every quote, for every text. |
| Lexer.QuotedStringRoundTrip | src/Lexer/Lexer.php:88-90 | Any text, with its quotes doubled and put between quotes, is classified STRING with exactly that text as value. |
| Lexer.LexemeLength | src/Lexer/Lexer.php:56-72 | At any offset the scanner tries the catchable patterns in the order of the alternation: identifier, number, quoted string, parameter. It takes the first one that matches. When none does, the lexeme is the one character of the `(.)` pattern. It is never empty and never runs past the input. |
| Lexer.ScanTiles | src/Lexer/Lexer.php:56-72 | The scanned lexemes tile the input in order. Each lexeme is the text at its offset, and everything between lexemes is white space, which gives no token. |
| Lexer.Classify | src/Lexer/Lexer.php:77-119 | Each lexeme becomes one token, in order, with the kind and value `getType` gives and the lexeme's offset as position. |
| Lexer.Tokenize | src/Lexer/Lexer.php:56-119 | The token list has one token per scanned lexeme. Each token sits at an offset inside the input, on a character that is not white space, and the offsets strictly increase. |
| Lexer.TilesOffsets | src/Lexer/Lexer.php:56-72 | The lexemes of a tiling start inside the input, on non-blank characters, in strictly increasing order. |
| Text.NatToStringRoundTrip | src/Parser/Parser.php:118 | The decimal text of a position reads back as that position. |
| Cursor.Start | src/Parser/Parser.php:37-41 | A fresh cursor over a token list is well formed, with every token still to be read. |
| Cursor.MoveNext | src/Parser/Parser.php:77 | `moveNext` makes the old lookahead the current token and resets the peek offset. It strictly shortens what remains when there was a lookahead. |
| Cursor.MoveNextReading | src/Parser/Parser.php:77 | On a cursor reading `t` then `ts`, the lookahead is `t` and `moveNext` leaves a cursor reading `ts`. |
| Cursor.StartReading | src/Parser/Parser.php:205 | After the first `moveNext`, the cursor reads the whole token list. |
| Cursor.Peek | src/Parser/Parser.php:171-188 | `peek` changes only the peek offset. On a token it advances the offset by one; at the end it changes nothing. |
| Cursor.Glimpse | src/Parser/Parser.php:352-354 | `glimpse` leaves the cursor with the peek offset reset and everything else unchanged. |
| Cursor.ResetPeek | src/Parser/Parser.php:191-193 | `resetPeek` sets the peek offset to 0 and changes nothing else. The next `peek` therefore shows the token right after the lookahead. |
| Cursor.IsNextTokenReading | src/Parser/Parser.php:239 | On a cursor reading a token list, `isNextToken(k)` holds exactly when the list is not empty and its first token has kind `k`. |
| Exceptions.ExpressionError | src/Exception/ExpressionException.php:20-23 | The exception's message is the expression verbatim, with code 0 and no previous exception. |
| Exceptions.SyntaxError | src/Exception/ExpressionException.php:31-34 | The message is `[Syntax Error] ` followed by the given message, with code 0 and the previous exception passed through. |
| Exceptions.SemanticalError | src/Exception/ExpressionException.php:42-45 | The message is `[Semantical Error] ` followed by the given message, with code 0 and the previous exception passed through. |
| Exceptions.SyntaxNotSemantical | src/Exception/ExpressionException.php:31-45 | No syntax error equals a semantical error. |
| Exceptions.FactoriesInjective | src/Exception/ExpressionException.php:31-45 | Each factory keeps its whole input: equal results come from equal messages and equal previous exceptions. |
| Nodes.LiteralCode | src/Node/LiteralNode.php:15-17 | The literal type constants lie in 1..3. |
| Nodes.LiteralCodeInjective | src/Node/LiteralNode.php:15-17 | The three literal type constants are distinct. |
| Nodes.NewConditionalFactor | src/Node/ConditionalFactorNode.php:16-23 | A new NOT node holds the given primary unchanged and its flag starts false. |
| Nodes.NewConditionalPrimary | src/Node/ConditionalPrimaryNode.php:16-18 | Both slots of a new primary wrapper start unset. |
| Nodes.NewBetweenExpression | src/Node/BetweenExpressionNode.php:16-29 | A new BETWEEN node holds its three operands unchanged and its flag starts false. The subject must be an identification variable. |
| Nodes.NewLikeExpression | src/Node/LikeExpressionNode.php:16-26 | A new LIKE node holds its subject and pattern unchanged and its flag starts false. The subject must be an identification variable. |
| Nodes.NewInExpression | src/Node/InExpressionNode.php:16-25 | A new IN node holds its subject unchanged, its flag starts false and its literal list starts empty. |
| Nodes.NewNullComparisonExpression | src/Node/NullComparisonExpressionNode.php:16-23 | A new IS NULL node holds its subject unchanged and its flag starts false. |
| Nodes.SetNot | src/Node/BetweenExpressionNode.php:34-37 | `setNot` sets the flag to the given value and changes nothing else. The same holds for the four other classes with a flag. |
| Nodes.SetNotLaws | src/Node/ConditionalFactorNode.php:28-31 | Setting the flag to its current value changes nothing, and the last of two sets wins. |
| Nodes.SetLiterals | src/Node/InExpressionNode.php:35-38 | `setLiterals` replaces the whole list and keeps the flag and subject. |
| Nodes.SetLiteralsLaws | src/Node/InExpressionNode.php:35-58 | Setting the list to its current value changes nothing, and the last of two sets wins. |
| Nodes.SetSimpleConditionalExpression | src/Node/ConditionalPrimaryNode.php:23-26 | The setter accepts any node into the simple slot and leaves the group slot alone. |
| Nodes.SetConditionalExpression | src/Node/ConditionalPrimaryNode.php:31-34 | The setter succeeds exactly on an OR node, filling the group slot and leaving the simple slot alone. Any other node is the type error naming the setter and the class. |
| Parser.ColumnNamesPosition | src/Parser/Parser.php:118 | The column in a message is the decimal text of the token's position, or `-1` without a token. |
| Parser.SyntaxErrorMessage | src/Parser/Parser.php:116-122 | The message starts `line 0, col `. It ends in a quote exactly when there is a lookahead. |
| Parser.ExpectedFoundMessage | src/Parser/Parser.php:116-122 | With an expectation and a lookahead, the message is `line 0, col <position>: Error: Expected <e>, got '<text>'`. |
| Parser.ExpectedEndMessage | src/Parser/Parser.php:116-122 | With an expectation and no lookahead, the message is `line 0, col -1: Error: Expected <e>, got end of string.`. |
| Parser.UnexpectedMessage | src/Parser/Parser.php:116-122 | With no expectation, the message is `Unexpected '<text>'` after the column, or `Unexpected end of string.` without a lookahead. |
| Parser.SyntaxFailure | src/Parser/Parser.php:112-125 | A syntax error is thrown with the `[Syntax Error] ` prefix before the composed message, chained to the expression error of the whole input. |
| Parser.CodesRejectAgrees | src/Parser/Parser.php:70-75 | The code test on constant values rejects exactly when the lookahead is absent or is a non-keyword of another kind, and the request is not IDENTIFIER. |
| Parser.Match | src/Parser/Parser.php:68-78 | `match` fails exactly when the lenient test rejects. It then throws "Expected" with the class-qualified constant name of the kind. Otherwise it is one `moveNext`, which consumes a token when there was one. |
| Parser.OptionalNot | src/Parser/Parser.php:286-291 | The NOT flag is set exactly when the lookahead is NOT, and then that one token is consumed; otherwise nothing moves. |
| Lookahead.SkipToMatchingAgrees | src/Parser/Parser.php:171-189 | The peeking loop returns the token after the point where the count of unmatched `(` first drops to zero, or none if it never does. |
| Lookahead.PeekBeyondAgrees | src/Parser/Parser.php:169-196 | Behind a `(` lookahead, the look past the matching `)` returns the token after it, with nesting counted, or none when unbalanced. |
| Parser.PeekBeyondClosingParenthesis | src/Parser/Parser.php:191-195 | After the look the peek offset is reset and the main cursor has not moved. |
| Lookahead.SkipDotsAgrees | src/Parser/Parser.php:361-367 | The loop over `.` pairs after the identifier stops at the first token past them that is not a `.`. |
| Lookahead.PastIdentifierAgrees | src/Parser/Parser.php:356-383 | After an identifier, the dispatch finds the token past the dots and one optional NOT, and the token after that past one more optional NOT. |
| Lookahead.DiscriminateAgrees | src/Parser/Parser.php:347-385 | The dispatch's peeks pick the same production as the index-based reference definition, including the offset reset of the NOT glimpse. |
| Parser.Discriminate | src/Parser/Parser.php:349-383 | The dispatch consumes nothing: at most the peek offset is reset. |
| Parser.PastIdentifier | src/Parser/Parser.php:356-383 | The peeks past an identifier end with the peek offset reset and the main cursor unmoved. |
| Parser.ComparisonOperator | src/Parser/Parser.php:542-585 | The operator is one of the six. `=` gives `=`; `<` gives `<`, `<=` or `<>`; `>` gives `>` or `>=`; `!` gives `<>`, so `!=` is never kept. A lookahead whose text is none of `=`, `<`, `>`, `!` is the syntax error listing the operators. |
| Parser.LowerThanTail | src/Parser/Parser.php:553-559 | After `<` the operator is `<=` exactly when `=` follows and `<>` exactly when `>` follows, consuming that token. Otherwise it is `<` and nothing moves. |
| Parser.GreaterThanTail | src/Parser/Parser.php:567-570 | After `>` the operator is `>=` exactly when `=` follows, consuming it. Otherwise it is `>`. |
| Parser.Literal | src/Parser/Parser.php:605-631 | A literal succeeds exactly on a STRING, INTEGER, FLOAT, TRUE or FALSE lookahead. It gives STRING, NUMERIC or BOOLEAN with the token's text and consumes that token. Anything else is "Expected Literal". |
| Parser.IdentificationVariable | src/Parser/Parser.php:638-643 | The identifier node holds the lookahead's text, and that token is consumed. |
| Parser.StringExpression | src/Parser/Parser.php:650-668 | A pattern succeeds exactly on an identifier or a string, holding its text. Anything else is the syntax error naming both. |
| Parser.OrTail | src/Parser/Parser.php:239-243 | The OR loop ends only where the lookahead is not OR. |
| Parser.AndTail | src/Parser/Parser.php:264-268 | The AND loop ends only where the lookahead is not AND. |
| Parser.ConditionalPrimary | src/Parser/Parser.php:313-338 | A successful primary consumes tokens and returns a primary wrapper with exactly one slot set. The group slot is set only when the lookahead was `(`, and then it holds an OR node. |
| Parser.SimplePrimary | src/Parser/Parser.php:317-331 | The simple path succeeds exactly when the dispatched simple expression does, and wraps that node in the simple slot with the same cursor. |
| Parser.GroupedExpression | src/Parser/Parser.php:333-337 | The grouped path fills only the group slot, with an OR node. When the expression after `(` is read but is not an OR node, the result is the setter's type error. |
| Parser.ConditionalExpression | src/Parser/Parser.php:234-252 | A successful expression consumes tokens and stops where the lookahead is not OR. |
| Parser.ConditionalTerm | src/Parser/Parser.php:259-277 | A successful term consumes tokens and stops where the lookahead is not AND. |
| Parser.ConditionalFactor | src/Parser/Parser.php:284-306 | Without a NOT lookahead the factor is the bare primary. With one, it succeeds exactly when the primary after the NOT does, and wraps it in a NOT node with the flag set. |
| Parser.SimpleConditionalExpression | src/Parser/Parser.php:347-402 | A successful simple expression consumes tokens and is a node of the class the dispatch picked. |
| Parser.ParseChosen | src/Parser/Parser.php:385-401 | Each production, when it succeeds, consumes tokens and returns a node of its own class. |
| Parser.BetweenExpression | src/Parser/Parser.php:409-428 | A BETWEEN node has the lookahead identifier as subject. Its flag is set exactly when NOT follows the subject. |
| Parser.ComparisonExpression | src/Parser/Parser.php:435-444 | A comparison node has an identifier or literal on the left, holding the lookahead's text, and one of the six operators. |
| Parser.InExpression | src/Parser/Parser.php:451-476 | An IN node has the lookahead identifier as subject and at least one literal. Its flag is set exactly when NOT follows the subject. |
| Parser.InParameters | src/Parser/Parser.php:460-473 | A parenthesised list holds at least one literal, and its first is the literal right after `(`. |
| Parser.InTail | src/Parser/Parser.php:466-469 | The comma loop keeps the literals it was given as a prefix. It adds at least one when a comma was next, and stops only where the lookahead is not a comma. |
| Parser.LikeExpression | src/Parser/Parser.php:493-511 | A LIKE node has the lookahead identifier as subject. Its flag is set exactly when NOT follows the subject. |
| Parser.NullComparisonExpression | src/Parser/Parser.php:518-535 | An IS NULL node has the lookahead identifier as subject. Its flag is set exactly when NOT follows IS. |
| Parser.ArithmeticPrimary | src/Parser/Parser.php:590-598 | An operand succeeds exactly on an identifier or a literal lookahead. It is an identifier node exactly on an identifier, holds the token's text and consumes that one token. Anything else is "Expected Literal". |
| Parser.FilterNode | src/Parser/Parser.php:222-227 | The root is always a FilterNode. |
| Parser.FilterLanguage | src/Parser/Parser.php:203-215 | A parse succeeds exactly when the root is read and no token is left. A token left over is the syntax error expecting end of string at that token, and a failure of the root is passed on unchanged. |
| Parser.Parse | src/Parser/Parser.php:48-54 | Lexing and parsing a query yields a FilterNode on success. |
| ParseShapes.ArithmeticShape | src/Parser/Parser.php:590-598 | An operand is one identifier or literal read from exactly one token. |
| ParseShapes.InTailShape | src/Parser/Parser.php:466-469 | The comma loop keeps what it was given and adds only literals. |
| ParseShapes.InParametersShape | src/Parser/Parser.php:460-473 | An IN list holds one or more literals. |
| ParseShapes.BetweenIsSimple | src/Parser/Parser.php:409-428 | A BETWEEN node has an identifier subject and operand bounds. |
| ParseShapes.LikeIsSimple | src/Parser/Parser.php:493-511 | A LIKE node has an identifier subject and an identifier-or-string pattern. |
| ParseShapes.InIsSimple | src/Parser/Parser.php:451-476 | An IN node has an identifier subject and a non-empty list of literals. |
| ParseShapes.NullComparisonIsSimple | src/Parser/Parser.php:518-535 | An IS NULL node has an identifier subject. |
| ParseShapes.ComparisonIsSimple | src/Parser/Parser.php:435-444 | A comparison node has operand sides and one of the six operators. |
| ParseShapes.SimpleShape | src/Parser/Parser.php:385-401 | Whichever production the dispatch picks, the result is a well-formed simple expression. |
| ParseShapes.ExprShape | src/Parser/Parser.php:234-252 | An expression is a single term, or an OR node over two or more terms. |
| ParseShapes.OrTailShape | src/Parser/Parser.php:239-251 | Collected terms give a single term or an OR node. |
| ParseShapes.OrTailKeeps | src/Parser/Parser.php:239-251 | One collected term with no OR after it is returned alone. Otherwise the result is an OR node over two or more terms that starts with the collected ones. |
| ParseShapes.TermShape | src/Parser/Parser.php:259-277 | A term is a single factor, or an AND node over two or more factors. |
| ParseShapes.AndTailShape | src/Parser/Parser.php:264-276 | Collected factors give a single factor or an AND node. |
| ParseShapes.AndTailKeeps | src/Parser/Parser.php:264-276 | One collected factor with no AND after it is returned alone. Otherwise the result is an AND node over two or more factors that starts with the collected ones. |
| ParseShapes.FactorShape | src/Parser/Parser.php:284-306 | A NOT node is built exactly when the lookahead was NOT, and then its flag is set; otherwise the bare primary is returned. |
| ParseShapes.PrimaryShape | src/Parser/Parser.php:313-338 | A primary wrapper has exactly one slot set: a simple expression, or an OR node read between parentheses. |
| ParseShapes.GroupShape | src/Parser/Parser.php:333-337 | A group holds an OR node, the only expression the setter admits. |
| ParseShapes.ParseShape | src/Parser/Parser.php:203-227 | A successful parse is a FilterNode over a single term or an OR node. |
| Shapes.FactorIsTerm | src/Parser/Parser.php:271-273 | A lone factor is a term. |
| Shapes.ExprOrNode | src/Parser/Parser.php:246-250 | An expression of the parser's shape that is an OR node holds at least two terms, since a single term is returned by itself. |
| Balance.ExprNeutral | src/Parser/Parser.php:171-189 | Every printed expression has balanced parentheses and never closes more than it opened. |
| Balance.AfterGroup | src/Parser/Parser.php:169-196 | Behind the `(` of a printed group, the look past the matching `)` lands exactly on the token after the group. |
| RoundTrip.LiteralRT | src/Parser/Parser.php:605-631 | A printed literal reads back as that literal, consuming one token. |
| RoundTrip.OperandRT | src/Parser/Parser.php:590-598 | A printed operand reads back as that operand, consuming one token. |
| RoundTrip.PatternRT | src/Parser/Parser.php:650-668 | A printed LIKE pattern reads back as that pattern. |
| RoundTrip.OperatorRT | src/Parser/Parser.php:542-585 | Each of the six operators, printed as one or two tokens, reads back as itself. |
| RoundTrip.NegateEqualsRT | src/Parser/Parser.php:574-578 | The tokens `!` and `=` read back as the operator `<>`, consuming both. |
| RoundTrip.DispatchPrinted | src/Parser/Parser.php:347-401 | On a printed simple expression, the dispatch picks the production that printed it. |
| RoundTrip.BetweenRT | src/Parser/Parser.php:409-428 | A printed BETWEEN, with or without NOT, reads back as the same node. |
| RoundTrip.LikeRT | src/Parser/Parser.php:493-511 | A printed LIKE, with or without NOT, reads back as the same node. |
| RoundTrip.InTailRT | src/Parser/Parser.php:466-469 | A printed comma list appends exactly its literals. |
| RoundTrip.InParametersRT | src/Parser/Parser.php:460-473 | A printed parenthesised list reads back as exactly its literals. |
| RoundTrip.InRT | src/Parser/Parser.php:451-476 | A printed IN, with or without NOT, reads back as the same node. |
| RoundTrip.NullComparisonRT | src/Parser/Parser.php:518-535 | A printed IS [NOT] NULL reads back as the same node. |
| RoundTrip.ComparisonRT | src/Parser/Parser.php:435-444 | A printed comparison reads back as the same node. |
| RoundTrip.SimpleRT | src/Parser/Parser.php:347-402 | Every printed simple expression reads back as itself. |
| RoundTrip.PrimaryRT | src/Parser/Parser.php:313-338 | A printed primary reads back as itself when the tokens after it end a factor. |
| RoundTrip.GroupRT | src/Parser/Parser.php:333-337 | A printed OR node between parentheses reads back into the group slot. |
| RoundTrip.PrimaryGroupRT | src/Parser/Parser.php:324-337 | On a printed group, the look past `)` chooses the grouped path, which returns the group. |
| RoundTrip.FactorRT | src/Parser/Parser.php:284-306 | A printed factor, with or without NOT, reads back as itself. |
| RoundTrip.AndTailRT | src/Parser/Parser.php:264-276 | The AND loop over printed factors collects exactly those factors. |
| RoundTrip.TermRT | src/Parser/Parser.php:259-277 | A printed term reads back as itself and stops before the next OR or end. |
| RoundTrip.OrTailRT | src/Parser/Parser.php:239-251 | The OR loop over printed terms collects exactly those terms. |
| RoundTrip.ExprRT | src/Parser/Parser.php:234-252 | A printed expression reads back as itself and stops before the tokens that follow it. |
| RoundTrip.ParsePrinted | src/Parser/Parser.php:203-227 | Parsing the printed tokens of any tree of the parser's shape returns exactly that tree under a FilterNode. |
| Positions.MoveNextSimilar | src/Parser/Parser.php:77 | Advancing two cursors that differ only in token positions keeps them so. |
| Positions.PeekSimilar | src/Parser/Parser.php:171-188 | Peeking such cursors shows the same token apart from its position and keeps them alike. |
| Positions.MatchSimilar | src/Parser/Parser.php:68-78 | `match` succeeds on one such cursor iff on the other, leaving them alike. |
| Positions.DiscriminateSimilar | src/Parser/Parser.php:347-385 | The dispatch chooses the same production for such cursors. |
| Positions.SimpleConditionalSimilar | src/Parser/Parser.php:347-402 | A simple conditional expression parses on one cursor iff on the other, to the same node, leaving the cursors alike. |
| Positions.ConditionalExpressionSimilar | src/Parser/Parser.php:234-252 | A conditional expression parses on one cursor iff on the other, to the same node, leaving the cursors alike. |
| Positions.FilterLanguageSimilar | src/Parser/Parser.php:203-215 | `filterLanguage` succeeds on one such cursor iff on the other, with the same tree. |
| Positions.PositionsIgnored | src/Parser/Parser.php:203-215 | Setting every token position to 0 changes neither whether the parse succeeds nor its tree. |
| Positions.ParseIgnoresSpacing | src/Parser/Parser.php:48-54 | Two texts that lex to the same kinds and texts parse alike: both succeed with the same tree or both fail. |
| Positions.ParseLexed | src/Parser/Parser.php:48-54 | Text that lexes to the printed tokens of a tree of the parser's shape, apart from positions, parses to exactly that tree. |
| Rejections.PrimaryFailureEndsParse | src/Parser/Parser.php:203-306 | A failure in the first primary is the failure of the whole parse, since nothing catches it. |
| Rejections.TrailingTokenRejected | src/Parser/Parser.php:207-212 | A complete expression followed by a token that cannot continue it is rejected at that token with "Expected end of string". |
| Rejections.GroupedTermRejected | src/Node/ConditionalPrimaryNode.php:31-34 | A single term between parentheses is rejected with the setter's type error. |
| Rejections.GroupPathTaken | src/Parser/Parser.php:324-333 | On a parenthesised expression followed by a factor end, the primary takes the grouped path. |
| Rejections.GroupedTermFails | src/Parser/Parser.php:333-335 | The grouped path reads a lone term and fails in the setter. |
| Rejections.DoubleNotRejected | src/Parser/Parser.php:352-354 | `NOT NOT` before an identifier is rejected at the second NOT with "Expected Literal". |
| Rejections.SecondNotFails | src/Parser/Parser.php:352-401 | After the first NOT, the dispatch sends the second NOT down the comparison path, which fails there. |
| Rejections.ParenthesisedOperandRejected | src/Parser/Parser.php:324-331 | When the token after the matching `)` of a `(` lookahead is an operator or a simple keyword, the primary takes the simple path and fails at the `(` with "Expected Literal". |
| Rejections.NonOperandComparison | src/Parser/Parser.php:435-444 | A comparison whose first token is neither an identifier nor a literal fails at that token with "Expected Literal". |
| Rejections.BetweenAnyKeyword | src/Parser/Parser.php:409-428 | Any keyword may stand where a BETWEEN expects AND, giving the same node. |
| Examples.BetweenThenAnd | src/Parser/Parser.php:419-422 | `a BETWEEN 1 AND 2 AND b = 3` is an AND node over the BETWEEN and the comparison: the BETWEEN takes the first AND. |
| Examples.TrailingIdentifier | src/Parser/Parser.php:48-54 | Parsing the text `a = 1 b` fails with "[Syntax Error] line 0, col 6: Error: Expected end of string, got 'b'". |
| Examples.TokenizeAEqualsOne | src/Lexer/Lexer.php:56-119 | The text `a = 1` lexes to an identifier at 0, `=` at 2 and an integer at 4. |
| Examples.ParseAEqualsOne | src/Parser/Parser.php:48-54 | Parsing the text `a = 1` succeeds with the FilterNode over the comparison of `a` with the integer literal 1. |
| Examples.TokenizeTrailing | src/Lexer/Lexer.php:56-119 | The text `a = 1 b` lexes to an identifier at 0, `=` at 2, an integer at 4 and an identifier at 6. |
| Examples.GroupedComparison | src/Node/ConditionalPrimaryNode.php:31 | `(a = 1)` fails with the setter's type error. |
| Examples.DoubleNot | src/Parser/Parser.php:352-354 | `NOT NOT a BETWEEN 1 AND 2` fails with "line 0, col 4: Error: Expected Literal, got 'NOT'". |
| Examples.BetweenWithOr | src/Parser/Parser.php:73 | `x BETWEEN 1 OR 2` reads as the BETWEEN from 1 to 2. |

The node classes without defaults or setters need no function of their own. These are FilterNode, the OR and AND nodes, ComparisonExpressionNode and LiteralNode. They are datatype constructors: their fields are exactly what the constructor received, the getters are field selectors, and no setter exists.

## Left out

- The three files under `src/Bridge/Doctrine` are left out. They depend on the Doctrine ORM query classes, draw parameter names from `uniqid()` and coerce values to floats.
- `Parser::semanticalError` (src/Parser/Parser.php:137-160) is left out. The grammar never calls it. Only its factory, `Exceptions.SemanticalError`, is modelled.
- `Parser::free` (src/Parser/Parser.php:88-100) is left out. It resets a reused instance and is not part of a parse.
- The Doctrine `AbstractLexer` base class is not part of this model. The cursor is rebuilt from how the parser uses it:
  - `moveNext` moves the lookahead into the current token and resets the peek offset;
  - `peek` returns the token at position plus offset and advances the offset only on a token;
  - `glimpse` is a `peek` followed by a reset.
- The regular-expression engine is replaced by a scanner that takes the same lexeme shapes.
  - `Lexer.ScanTiles` states that the scanner tiles the input.
  - The scanner's choice among overlapping patterns is not proved equal to `preg_split`'s.
- PHP's `is_numeric` is restricted to the texts the number pattern can produce: digits, at most one `.digits` fraction, and an optional exponent. The pattern itself takes any number of `.digits` groups, so a text such as `1.2.3` is one lexeme that is not numeric and becomes NONE.
- Strings are sequences of characters, not bytes. Upper-casing covers ASCII letters only.
- The Doctrine `getLiteral` is modelled only for the kinds `match` passes it (`Tokens.KindLiteral`). Its fallback for a value that names no constant is not reachable from the parser.
- `Node.php` and `IdentificationVariableNode.php` are not part of this model. The identifier is a variant holding the token's text.
- The `array|Node` union documented on the OR and AND nodes is modelled as a sequence. The parser only ever passes arrays.
- Parser.IdentificationVariable: requires a lookahead. Every call site reaches it only after a peek has seen a token, so the absent-token case is not modelled.
- ParseShapes.InTailShape: states only that literals are kept and added. The exact count appears in `RoundTrip.InTailRT`.
- RoundTrip.ParsePrinted: every printed token has position 0 and keyword text in upper case, so it never applies to lexer output directly. `Positions.ParseLexed` carries it to lexed text up to positions. Text with lower-case keywords is not covered, because the similarity requires equal token texts.
- Positions: failures are matched only as failures. Their messages may differ, because a syntax error reports the column of the token's position.
- Lookahead.DiscriminateAgrees: requires a peek offset of 0. That holds at every call, since each production begins right after a `moveNext` or a reset.
- The consumption relation in the grammar contracts (`Parser.Consumed`, `Parser.Advanced`) compares only the input and the number of tokens remaining. The peek offset is left free.
- Examples.BetweenWithOr: stated for `betweenExpression` alone, starting at the subject. A whole query with a trailing OR would continue the OR loop instead.
