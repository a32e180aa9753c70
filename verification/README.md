# Perilla front end in Dafny

A model of the front end of Perilla, a small Kaleidoscope-style compiler.
The model proves properties of each piece.

- **Lexer** (`Lexer` with its `StringLexer` source). It walks a string one character at a time and keeps the last character read in `current`. It skips whitespace and `#` comments. It appends tokens to a list:
  - identifiers, with `def` and `extern` reclassified as keywords;
  - numbers, as an unvalidated run of digits, `e`, `E`, `+`, `-` and `.`;
  - a one-character `Unknown` token for anything else.
- **Token value type**. A token has a type tag, its raw text and a character. It has a custom equality and a printable form.
- **Operator table** (`BinaryOperatorPrecedence`). A constant map from `<`, `+`, `-` and `*` to a precedence, with `-1` for an unsupported operator.
- **Recursive-descent parser** (`ASTGenerator`). It indexes a token list with a cursor `cur`:
  - it dispatches on the top-level construct (`def`, `extern`, or an expression wrapped in an anonymous function);
  - it parses primaries, call arguments and prototypes;
  - it groups binary operators by precedence climbing.
- **`GenerateRandom`**, which draws the ten-character suffix of an anonymous function's name from `rand()`.

## Layout

| file | module | contents |
|---|---|---|
| `wrappers.dfy` | `Wrappers` | `Option`, and `Outcome`, whose failure `OutOfTokens` marks a dereference of an exhausted `CurrentToken()` |
| `tokens.dfy` | `Tokens` | the `Token` datatype, its constructors, `operator==` and `GetString` |
| `precedence.dfy` | `Precedence` | the operator table |
| `utils.dfy` | `Utils` | `GenerateRandom` and the string it builds |
| `lexing.dfy` | `Lexing` | the pure functions `Step`, `Lex` and `Tokenize`, their lemmas, and the class `StringLexer` proved against them |
| `syntax.dfy` | `Syntax` | the AST node data; a child the C++ may leave null is an `Option` |
| `parsing.dfy` | `Parsing` | each parsing routine as a function of the token list and the cursor |
| `generation.dfy` | `Generation` | the class `ASTGenerator`; each method is proved to return what the matching `Parsing` function says, and to leave `cur` where it says |
| `parser_properties.dfy` | `ParserProperties` | properties of the parser and of the whole pipeline from text to tree |

## How the model reads the code

- **The lexer.**
  - `Lexer` and `StringLexer` are merged into one class, `StringLexer`.
  - `Parse` calls itself as a tail call after every token. That recursion becomes one loop in `StringLexer.Parse`.
  - `ParseIdent`, `ParseNumber`, `ParseComment` and `ParseUnknown` are the loop's step methods, without their tail calls.
  - The pure function `Lex(s, p, c)` lists the tokens emitted from the state `pos == p`, `current == c`.
  - `Tokenize(s)` is what `Run` produces on a fresh lexer.
- **End-of-input behaviour.** `Parse` returns as soon as `Eof()` holds, even though `current` still holds the last character read.
  - A final character that would start a new token is lost: `a+b` lexes as `a`, `+`.
  - A final character that extends an identifier or a number is kept.
- **Numbers.** `+` and `-` are accepted inside a number, so the source `"1+2*3\n"` lexes as the number `1+2`, then `*`, then `3`. The parser then builds the product of the number `1+2` and the number `3`. The source `"1 + 2 * 3\n"` lexes as five tokens and groups as `1 + (2 * 3)`. Both are proved, in `UnspacedExpression` and `SpacedExpression`.
- **The two `Unknown` constructors.**
  - `Token(ch)` builds its content with `content{1, ch}`. That is list-initialisation, so the content is the two characters `'\x01'` and `ch`.
  - `Token(Unknown, s)` keeps `s`.
  - `operator==` and `GetString` read only the character, so both kinds of token behave alike (`CharConstructorAgreesWithText`).
- **The character of other tokens.** For tokens other than `Unknown`, the C++ leaves `character` uninitialised. The model fixes it to `'\0'`.
- **Parser failures.**
  - Several parser sites dereference `CurrentToken()` without a null check. Once the tokens are exhausted, that is undefined behaviour. These sites return `OutOfTokens`, and `Run` then ends as `Crashed`.
  - When a top-level expression consumes no token, the C++ `Run` never ends. It parses the same tokens again and again, and each time appends a new anonymous function with the same body and a newly drawn name. The model records the first such node and ends as `Stalled`. A stray `)` and a comma in a parameter list both lead there (`StrayParenthesisStalls`, `CommaInPrototypeStalls`).
- **Eager lexing.** The lexer builds its whole token list before the parser starts. No token records a line or column, and no diagnostics are collected.
- **The operator table** is a constant, so no operator can be added at run time.
- **`rand()`.** It is the parameter `rand: nat -> nat`, which lists the values successive calls return. The generator counts the calls it has used in `draws`.

## Data

| Dafny type | C++ entity |
|---|---|
| `Tokens.Kind` | `Token::Type`, `Perilla/Token.h:14-20` |
| `Tokens.Token` | `Token`, `Perilla/Token.h:11-125`, without the `double` payload |
| `Syntax.Expr` | `NumberExprAST` (`Perilla/AST.h:65-80`), `VariableExprAST` (`Perilla/AST.h:82-101`), `BinaryExprAST` (`Perilla/AST.h:103-142`) and `CallExprAST` (`Perilla/AST.h:144-180`) |
| `Syntax.Prototype` | `PrototypeAST`, `Perilla/AST.h:182-211` |
| `Syntax.FunctionDef` | `FunctionAST`, `Perilla/AST.h:213-264` |
| `Syntax.Node` | an entry of `astNodes`: null, a `FunctionAST` or a `PrototypeAST` |
| `Lexing.StringLexer` | `Lexer` (`Perilla/Lexer.h:15-128`) and `StringLexer` (`Perilla/Lexer.h:130-148`) |
| `Generation.ASTGenerator` | `ASTGenerator`, `Perilla/AST.h:266-503` |

## Model

| member | source | states |
|---|---|---|
| Tokens.FromText | Perilla/Token.h:22-29 | the token keeps the given type and text; an `Unknown` token takes its character from the text's first position (`'\0'` for empty text) |
| Tokens.FromChar | Perilla/Token.h:31 | `Token(ch)` is `Unknown`, with character `ch` and content `'\x01'` followed by `ch` |
| Tokens.Equal | Perilla/Token.h:78-88 | every token equals itself, and equal tokens have the same type; `EqualByKind` and `EqualIsEquivalence` state the rest |
| Tokens.NotEqual | Perilla/Token.h:90-93 | tokens for which `operator!=` holds are different values; `EqualIsEquivalence` states that it is the negation of `operator==` |
| Tokens.IsChar | Perilla/Token.h:78-88 | a token compares equal to `Token{ch}` iff it is an `Unknown` token whose character is `ch` |
| Tokens.GetString | Perilla/Token.h:95-116 | the printed form is non-empty and starts with a letter that identifies the token's type |
| Tokens.ExactlyOneKind | Perilla/Token.h:33-61 | exactly one `Is*` predicate holds, the one that agrees with `GetType()` |
| Tokens.EqualIsEquivalence | Perilla/Token.h:78-93 | `operator==` is reflexive, symmetric and transitive; `operator!=` is its negation |
| Tokens.EqualByKind | Perilla/Token.h:78-88 | tokens of different types are unequal; `Unknown` tokens are equal iff their characters are; other tokens are equal iff their contents are |
| Tokens.CharConstructorAgreesWithText | Perilla/Token.h:22-31 | `Token(ch)` and `Token(Unknown, s)` with `s[0] == ch` are equal and print alike, although their contents differ |
| Tokens.NumbersCompareByText | Perilla/Token.h:84-87 | number tokens compare by raw text: `1.0` and `1` are unequal |
| Tokens.EqualOnCanonical | Perilla/Token.h:78-88 | on tokens shaped as the lexer builds them, `operator==` is structural equality |
| Tokens.GetStringSeparates | Perilla/Token.h:95-116 | on such tokens, two tokens print alike iff `operator==` holds between them |
| Precedence.Get | Perilla/OperatorPrecedence.h:10-17 | the table entry for a supported operator and `-1` otherwise; the result is positive iff the operator is supported |
| Precedence.Support | Perilla/OperatorPrecedence.h:19-22 | no contract of its own; `Get` and `SupportedOperators` state that it holds for exactly `<`, `+`, `-` and `*` |
| Precedence.SupportedOperators | Perilla/OperatorPrecedence.h:28-33 | `Support(op)` holds iff `op` is one of `<`, `+`, `-`, `*` |
| Precedence.PrecedenceOrder | Perilla/OperatorPrecedence.h:28-33 | `<` is 100, `+` and `-` are 200, `*` is 400, so `*` binds tighter than `+` and `-`, which bind tighter than `<` |
| Utils.RandomString | Perilla/Utils.h:4-15 | the generated string has the requested length and only alphanumeric characters |
| Utils.GenerateRandom | Perilla/Utils.h:4-15 | the loop fills character `i` from the `i`-th `rand()` value, giving `RandomString` |
| Utils.AlphanumIsAlphanumeric | Perilla/Utils.h:5-8 | the table has 62 characters, all digits or letters |
| Lexing.IsSpace | Perilla/Lexer.h:44 | no contract of its own: `isspace` in the "C" locale; `SpaceSkipped` states its effect |
| Lexing.IsAlpha | Perilla/Lexer.h:47 | no contract of its own: `isalpha` in the "C" locale; `LetterStep` and `IdentifierToken` state its effect |
| Lexing.IsDigit | Perilla/Lexer.h:49 | no contract of its own: `isnumber`, which is `isdigit` in the "C" locale; `DigitStep` and `NumberToken` state its effect |
| Lexing.IsAlnum | Perilla/Lexer.h:62 | no contract of its own: `isalnum` in the "C" locale; `IdentifierToken` states that an identifier takes the maximal run of such characters |
| Lexing.ValidInNumber | Perilla/Lexer.h:121-124 | no contract of its own; `NumberToken` and `NumbersAreNotValidated` state that a number absorbs every such character, unchecked |
| Lexing.SpanEndRun | Perilla/Lexer.h:62-64 | the scanning loop stops at the end of the maximal run of accepted characters |
| Lexing.SpanEndUnique | Perilla/Lexer.h:82-84 | any position that ends a run of accepted characters is the one the scan finds |
| Lexing.Classify | Perilla/Lexer.h:66-72 | text `def` gives `Def`, `extern` gives `Extern`, anything else gives `Ident` carrying the text |
| Lexing.IdentStep | Perilla/Lexer.h:58-75 | a round that starts on a letter emits exactly one token, an identifier or a keyword and never a number or `Unknown`; an identifier's text starts with that letter; the lexer advances |
| Lexing.NumberStep | Perilla/Lexer.h:77-88 | a round that starts on a digit emits exactly one number token, whose text starts with that digit; the lexer advances |
| Lexing.CommentStep | Perilla/Lexer.h:90-98 | a comment emits nothing; it passes no newline before the one it stops at, and reads one more character after that newline |
| Lexing.UnknownStep | Perilla/Lexer.h:100-106 | no contract of its own; `UnknownEmitted` states that it emits `Token(ch)` and advances one character |
| Lexing.Step | Perilla/Lexer.h:41-56 | one round of `Parse` reads at least one character and emits at most one token |
| Lexing.Lex | Perilla/Lexer.h:41-56 | no contract of its own; `LexLength`, `LexWellLexed` and `LexAtEnd` state its properties, and `StringLexer.Parse` is proved to append exactly `Lex` |
| Lexing.Tokenize | Perilla/Lexer.h:35-39 | no contract of its own; `TokenizeWellLexed` states its properties, and `StringLexer.Run` is proved to append exactly `Tokenize` |
| Lexing.StepWellLexed | Perilla/Lexer.h:44-55 | every token one round emits is well formed |
| Lexing.LexWellLexed | Perilla/Lexer.h:41-106 | identifiers are a letter then alphanumerics and never a keyword, numbers start with a digit, and `Unknown` tokens never carry whitespace, a letter, a digit or `#` |
| Lexing.TokenizeWellLexed | Perilla/Lexer.h:35-39 | a fresh run emits only well-formed tokens, at most one per source character |
| Lexing.LexLength | Perilla/Lexer.h:41-56 | the lexer emits no more tokens than there are characters left |
| Lexing.LexAtEnd | Perilla/Lexer.h:43 | once the source is exhausted nothing more is emitted, whatever `current` holds |
| Lexing.SpaceSkipped | Perilla/Lexer.h:44-46 | whitespace is consumed and produces no token |
| Lexing.CommentSkipped | Perilla/Lexer.h:90-98 | `#` discards everything up to and including the next newline, or to the end, and produces no token |
| Lexing.UnknownEmitted | Perilla/Lexer.h:100-106 | any other character yields one `Unknown` token carrying it, and the lexer advances one character |
| Lexing.IdentifierToken | Perilla/Lexer.h:58-75 | an identifier's text is the letter followed by the maximal alphanumeric run, reclassified as a keyword when it is `def` or `extern` |
| Lexing.NumberToken | Perilla/Lexer.h:77-88 | a number's text is the digit followed by the maximal run of characters that `ValidInNumber` accepts |
| Lexing.FinalCharacterDropped | Perilla/Lexer.h:41-56 | the final `b` of `a+b` is never tokenized |
| Lexing.FinalCharacterExtendsIdentifier | Perilla/Lexer.h:58-64 | a final character that extends an identifier is kept: `a+bc` ends with `bc` |
| Lexing.NumbersAreNotValidated | Perilla/Lexer.h:121-124 | `1-2` and `1e+.` each lex as a single number token |
| Lexing.KeywordReclassified | Perilla/Lexer.h:66-69 | the source `"def f "` lexes as the keyword `def` and the identifier `f` |
| Lexing.KeywordPrefixNotReclassified | Perilla/Lexer.h:66-72 | the source `"define "` lexes as one identifier, not as a keyword |
| Lexing.StringLexer.constructor | Perilla/Lexer.h:133 | a fresh lexer is at position 0 over the given source, with no tokens |
| Lexing.StringLexer.Next | Perilla/Lexer.h:135-138 | returns `source[pos]` and advances `pos` by exactly one |
| Lexing.StringLexer.GetCurrent | Perilla/Lexer.h:26-33 | reads the next character into `current` iff the source is not exhausted; otherwise nothing changes |
| Lexing.StringLexer.Reset | Perilla/Lexer.h:18-21 | the token list is empty |
| Lexing.StringLexer.Run | Perilla/Lexer.h:35-39 | the lexer reads the whole source and appends exactly `Tokenize(source)` on a fresh lexer; the token list only grows |
| Lexing.StringLexer.Parse | Perilla/Lexer.h:41-56 | the loop appends exactly `Lex` of the state it starts in and stops at the end of the source |
| Lexing.StringLexer.Dispatch | Perilla/Lexer.h:44-55 | one round appends what `Step` emits and leaves the position where `Step` says |
| Lexing.StringLexer.ParseIdent | Perilla/Lexer.h:58-75 | appends the identifier or keyword token and stops one character past it, or at the end |
| Lexing.StringLexer.ParseNumber | Perilla/Lexer.h:77-88 | appends the number token and stops one character past it, or at the end |
| Lexing.StringLexer.ParseComment | Perilla/Lexer.h:90-98 | reads past the newline and one more character, appending nothing |
| Lexing.StringLexer.ParseUnknown | Perilla/Lexer.h:100-106 | appends one `Unknown` token and reads one more character |
| Parsing.TokenAt | Perilla/AST.h:492-498 | the token at an index, or null past the end |
| Parsing.Primary | Perilla/AST.h:310-354 | a non-null primary consumes at least one token; a primary that consumes nothing is null |
| Parsing.Expr | Perilla/AST.h:381-385 | the cursor never moves backwards or past the end |
| Parsing.BinRhs | Perilla/AST.h:387-414 | consumes a token iff the current token is a supported operator of precedence at least `prec`, and then builds a binary node; otherwise it returns `lhs` unchanged without consuming; a result always stops in front of a token that is not such an operator |
| Parsing.Arguments | Perilla/AST.h:356-379 | at `)` the list is empty and nothing is consumed; at the end of the tokens it dereferences a missing token; at any other token it is the argument loop's result |
| Parsing.ArgumentList | Perilla/AST.h:364-378 | the loop yields at least one argument and stops, without consuming it, at a token that is not `,` |
| Parsing.ArgumentListContents | Perilla/AST.h:364-378 | the first argument is the expression parsed at the cursor; after a `,` the remaining arguments and the end are those of the loop's next round after that comma; any other token after the expression, `)` included, ends the list with that one argument; the loop fails where the expression fails or where no token follows it |
| Parsing.Params | Perilla/AST.h:432-446 | the parameters are the consecutive identifiers, in order; the loop stops at a non-identifier, and a `)` that follows an identifier is always consumed |
| Parsing.ProtoAt | Perilla/AST.h:416-452 | a prototype is named after the identifier at the cursor and needs `(` after it, and then it always exists; `name ( )` has no parameters and ends after the `)`; otherwise its parameters and end are those of `Params` after the `(`; a null prototype consumes nothing, or only the name when that is an identifier |
| Parsing.Definition | Perilla/AST.h:454-465 | a definition node exists iff the current token is `def`, and then at least that token is consumed |
| Parsing.DefinitionParts | Perilla/AST.h:454-465 | after `def`, the definition succeeds iff the prototype at the next token and the expression after that prototype both succeed; it is then a function whose prototype and body are exactly those two parses, either possibly null, and it ends where the expression ends |
| Parsing.Extern | Perilla/AST.h:467-476 | without `extern` the result is null and nothing is consumed; after `extern` it is the prototype that follows, and at least the keyword is consumed |
| Parsing.Toplevel | Perilla/AST.h:478-484 | the cursor never moves backwards or past the end |
| Parsing.TopItem | Perilla/AST.h:279-289 | a `def` or `extern` construct always consumes a token |
| Parsing.Program | Perilla/AST.h:271-291 | no contract of its own; `FinishedBound`, `SemicolonsOnly` and `OnlyExpressionsStall` state its properties, and `ASTGenerator.Run` is proved to append exactly `Program` |
| Generation.ASTGenerator.constructor | Perilla/AST.h:269 | the cursor starts at 0, with no nodes and no `rand()` calls used |
| Generation.ASTGenerator.CurrentToken | Perilla/AST.h:492-494 | the token at `cur`, or null iff `cur` is past the end |
| Generation.ASTGenerator.NextToken | Perilla/AST.h:496-498 | the token at `cur + 1`, or null iff that is past the end |
| Generation.ASTGenerator.Run | Perilla/AST.h:271-291 | appends exactly the nodes `Program` lists and reports how the run ended; a finished run has used every token |
| Generation.ASTGenerator.Dispatch | Perilla/AST.h:279-289 | parses one top-level construct, as `TopItem` says |
| Generation.ASTGenerator.ParsePrimary | Perilla/AST.h:310-354 | returns `Primary` of the starting cursor and leaves `cur` after it |
| Generation.ASTGenerator.ParseArguments | Perilla/AST.h:356-379 | returns `Arguments` of the starting cursor and leaves `cur` after it |
| Generation.ASTGenerator.ParseExpr | Perilla/AST.h:381-385 | returns `Expr` of the starting cursor and leaves `cur` after it |
| Generation.ASTGenerator.ParseBinRhs | Perilla/AST.h:387-414 | returns `BinRhs` of the starting cursor, precedence and left operand |
| Generation.ASTGenerator.ParseParameterNames | Perilla/AST.h:432-446 | the parameter loop collects `Params` of the starting cursor |
| Generation.ASTGenerator.ParsePrototype | Perilla/AST.h:416-452 | returns `ProtoAt` of the starting cursor and leaves `cur` after it |
| Generation.ASTGenerator.ParseDefinition | Perilla/AST.h:454-465 | returns `Definition` of the starting cursor and leaves `cur` after it |
| Generation.ASTGenerator.ParseExtern | Perilla/AST.h:467-476 | returns `Extern` of the starting cursor and leaves `cur` after it |
| Generation.ASTGenerator.ParseToplevel | Perilla/AST.h:478-484 | uses ten `rand()` values and returns `Toplevel` with the name they make |
| ParserProperties.PrimaryOps | Perilla/AST.h:310-354 | every binary node in a parsed primary has an operator from the table |
| ParserProperties.ExprOps | Perilla/AST.h:381-385 | every binary node in a parsed expression has an operator from the table |
| ParserProperties.BinRhsOps | Perilla/AST.h:394-409 | `ParseBinRhs` builds binary nodes only with supported operators |
| ParserProperties.ArgumentsOps | Perilla/AST.h:356-379 | every argument's binary nodes have operators from the table |
| ParserProperties.ArgumentListOps | Perilla/AST.h:364-378 | the same, for the argument loop |
| ParserProperties.PrimaryCases | Perilla/AST.h:317-353 | a number or a variable takes one token; `( e )` gives `e` itself with no wrapper; `( )` gives null after both tokens; `( e` without `)` gives null and stops after `e`, or dereferences a missing token; a call runs through its `)`, and without one gives null; another token gives null and consumes nothing |
| ParserProperties.ThreeOperands | Perilla/AST.h:398-409 | in `x o1 y o2 z` the second operator groups first iff it binds strictly tighter, so equal precedences group to the left |
| ParserProperties.PrecedenceExamples | Perilla/AST.h:398-409 | `1 + 2 * 3` groups as `1 + (2 * 3)`, and `4 - 2 - 1` as `(4 - 2) - 1` |
| ParserProperties.AnonymousFunction | Perilla/AST.h:478-484 | a top-level expression succeeds iff the expression does; it becomes a nullary function named `__anon_expr_` followed by ten alphanumerics, one `rand()` call each, whose body is the expression and which ends where the expression ends |
| ParserProperties.KeywordItems | Perilla/AST.h:279-286 | at `def` the item succeeds iff `ParseDefinition` does and is a function node holding its definition; at `extern` it succeeds iff `ParseExtern` does and is that prototype's node, or the null node when there is none; both leave the cursor where that parser stopped and draw no random characters |
| ParserProperties.ExprNothingIsNull | Perilla/AST.h:381-385 | an expression that consumes no token is null |
| ParserProperties.OnlyExpressionsStall | Perilla/AST.h:271-290 | a run stalls only at a token other than `def`, `extern` and `;` whose expression consumes nothing, and the last node it appends is an anonymous function with a null body |
| ParserProperties.FinishedBound | Perilla/AST.h:271-290 | a run that finishes appends at most one node per token |
| ParserProperties.SemicolonsOnly | Perilla/AST.h:273-277 | top-level `;` are skipped and append nothing |
| ParserProperties.ExternExample | Perilla/AST.h:467-476 | the tokens `extern` `sin` `(` `x` `)` give the prototype `sin(x)` |
| ParserProperties.DefinitionExample | Perilla/AST.h:454-465 | the tokens `def` `bar` `(` `a` `)` `a` `+` `100` define `bar` with body `a + 100` |
| ParserProperties.DefinitionWithoutPrototype | Perilla/AST.h:462-464 | the tokens `def` `1` still build a function node, with a null prototype |
| ParserProperties.DefinitionAtEnd | Perilla/AST.h:419-420 | the single token `def` dereferences a missing token |
| ParserProperties.StrayParenthesisStalls | Perilla/AST.h:271-290 | the single token `)` is an anonymous expression that consumes nothing, so the C++ `Run` never ends; the model stops with `Stalled` |
| ParserProperties.CommaInPrototypeStalls | Perilla/AST.h:434-446 | the tokens `extern` `f` `(` `x` `,` `y` `)` stop the parameters at the comma, and `Run` then stalls on it |
| ParserProperties.TwoArgumentCall | Perilla/AST.h:356-379 | the tokens `foo` `(` `1` `,` `2` `)` form the call `foo(1, 2)`, whose arguments are the expressions between the commas in order |
| ParserProperties.TrailingCommaCrashes | Perilla/AST.h:367-368 | the tokens `foo` `(` `1` `,` dereference a missing token in the argument loop, so the run crashes |
| ParserProperties.SpacedTokens | Perilla/Lexer.h:41-56 | the source `"1 + 2 * 3\n"` lexes as five tokens |
| ParserProperties.SpacedExpression | Perilla/AST.h:387-414 | lexed and parsed, the source `"1 + 2 * 3\n"` is `1 + (2 * 3)` |
| ParserProperties.UnspacedTokens | Perilla/Lexer.h:121-124 | the source `"1+2*3\n"` lexes as the number `1+2`, then `*`, then `3` |
| ParserProperties.UnspacedExpression | Perilla/AST.h:387-414 | lexed and parsed, the source `"1+2*3\n"` is the product of the number `1+2` and the number `3` |

## Left out

- LLVM code generation. This covers the `CodeGen` methods, `ASTGenerator::CodeGen` and the static `context`, `builder`, `module` and `symbolTable`. It is a foreign library with global state.
- Console output. This covers `PrintAST`, `PrintTokens`, the nodes' `GetString` and `operator<<`. `Token::GetString`, which only builds a string, is modelled.
- The `double` payload of number tokens and number nodes, computed by `stod`. It is floating point. Tokens and `Num` nodes keep the raw text. The `out_of_range` exception `stod` can throw is not modelled either.
- The driver `main.cpp`. The pipeline is `Tokenize` feeding `ASTGenerator`.
- `shared_ptr` ownership and aliasing. Children are plain datatype fields, with `Option` where the C++ may store null.
- Character classes. `isspace`, `isalpha`, `isnumber` and `isalnum` are modelled for the "C" locale over ASCII. Characters outside that range fall in no class.
- Non-ASCII source text. The model's `string` is a sequence of Unicode characters, while `std::string` is a sequence of bytes; the source is taken to be ASCII text, one `char` per character. A non-ASCII character is one `Unknown` token in the model, whereas the C++ sees its UTF-8 bytes (two or more `Unknown` tokens with an unsigned `char`; undefined behaviour in `isspace` and the other classifiers with a signed one).
- Undefined behaviour after the tokens run out. The model does not say what the C++ would do; it reports `OutOfTokens`.
- Non-termination of `Run`. When a top-level expression consumes nothing, the C++ appends a new anonymous function with the same body and a newly drawn name, forever. The model reports `Stalled` after the first such node.
- Tail calls. The `Parse*` step methods of `StringLexer` are modelled without their trailing call to `Parse()`; that call is the next round of the loop in `StringLexer.Parse`.
- `rand()` itself. It is the parameter `rand`, so nothing is claimed about the values it returns, and anonymous names are not claimed to be unique.
- The uninitialised `current` of a fresh lexer. The constructor's contract leaves it unspecified; `Run` reads a character into it before `Parse` looks at it, or stops at once on an empty source.
- The uninitialised `character` of non-`Unknown` tokens. The model fixes it to `'\0'`.
- `Lexing.StringLexer.GetTokens` and `Generation.ASTGenerator.GetASTNodes` are plain reads of a field, and `Lexing.StringLexer.Eof` is the comparison of `pos` with the source length. They have no contract of their own.
- Tokens.GetString: its contract states only that the first character identifies the type. The full printed form is its definition, and `GetStringSeparates` states what it achieves.
- Parsing.ArgumentList: its contract states only the list's length and where it stops. What the arguments are is stated by `ArgumentListContents`, kept apart so that the other parsing functions do not carry it.
- Parsing.Definition: its contract states only when a node exists and that `def` is consumed. What the node holds is stated by `DefinitionParts`.
- Parsing.TopItem: its contract states only that `def` and `extern` consume a token. Which parser runs and the node it yields are stated by `KeywordItems` and `AnonymousFunction`.
- Parsing.Expr, Parsing.Toplevel: their contracts state only the cursor bounds. What they build is stated by `PrecedenceExamples` and `ThreeOperands`; `AnonymousFunction` states that `Toplevel` wraps the expression's node as the body and ends where the expression ends.
