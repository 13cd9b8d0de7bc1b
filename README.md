# A verified model of three lambda-calculus front ends

The repository holds three successive versions of a small lambda-calculus
front end written in Python: `assignment_1/main.py`,
`assignment_2/main.py` and `assignment_3/main.py`. Each version encodes
tokens and syntax trees as tuples. Each turns one line of text into tokens
with a character lexer. It then parses the tokens by popping them off a
shared list, and prints the result back as text. The second version also
renames binders (`alpha_conversion`), substitutes (`substitute`), contracts
redexes (`beta_reduction`) and runs a bounded normalisation loop. The third
version parses typed judgements `expr : type`. It has its own substitution
routine, confusingly named `beta_reduction`.

This project models each version in a module of its own:

- `common.dfy` (module `Common`) holds the `Result` type for raised
  exceptions, a sequence filter, a suffix predicate and the Python
  character classes the lexers branch on.
- `lambda1.dfy` (module `Lambda1`) models `assignment_1/main.py`.
- `lambda2.dfy` (module `Lambda2`) models `assignment_2/main.py`.
- `lambda3.dfy` (module `Lambda3`) models `assignment_3/main.py`.

The model follows the form of the code:

- Each lexer is a `method` with a `for` loop over the characters. Its loop
  invariant ties the token list and the identifier accumulator to `Scan`,
  a function that folds one `Step` per character.
- Each parser is a `class Parser` whose `tokens` field the methods pop
  from. Every method is proved equal to a function that returns the
  result (or the exception raised) together with the token list left
  behind. The `while` loop of the third version's parenthesis case keeps
  that equality as its loop invariant.
- `alpha_conversion` is a method of `class Renamer`, which owns the
  caller's `var_map`. The method is proved against the function `Alpha`.
- The normalisation loop of the second version's `main` is the method
  `Lambda2.Normalise`, proved against the function `Normalised`.
- The pure routines are functions: `substitute`, both `beta_reduction`s
  and the printers.
- Every `raise` becomes an `Err` variant. A parse result keeps the token
  list as it stood when the exception was raised.

The model follows the code wherever the code departs from the general
design of such an engine:

- Substitution does not avoid variable capture.
- Application in the second version nests to the right.
- `beta_reduction` in the second version contracts every outermost redex
  in one pass. It does not follow a leftmost-outermost strategy.
- Lexers drop unknown characters instead of failing.
- Parsers consume the caller's token list and ignore leftover tokens.
- The printers use the formats in the code.
- No version has a type checker, so none is modelled.

The lemmas prove several of these quirks for all inputs or on concrete
terms. In the first and third versions `λ` (and `\` in the third) is an
identifier character, so no LAMBDA token is ever produced from text. In the
first version the parser recognises parentheses and lambdas by comparing a
token's text with the kind names, so only a leading variable parses from
text.

## Model

| member | source | states |
|---|---|---|
| Lambda2.Lexer | assignment_2/main.py:26-64 | the loop's token list is exactly `Lex(input)`, the left-to-right scan of the input |
| Lambda2.LexBreak | assignment_2/main.py:33-57 | `位`, each of `( ) ; + * .` and white space end the current identifier; the text on each side lexes independently, with the character's own token (if any) in between |
| Lambda2.LexLetter | assignment_2/main.py:38-43 | a letter always starts a new identifier: the tokens before it are those of the prefix alone |
| Lambda2.LexDropped | assignment_2/main.py:58-59 | an unrecognised character is dropped without ending the current identifier |
| Lambda2.LexName | assignment_2/main.py:38-46 | one letter or digit followed by digits lexes to one VAR token holding all of it |
| Lambda2.LexTexts | assignment_2/main.py:26-64 | the VAR texts concatenate to exactly the input's name characters, and the other tokens to exactly its `位 ( ) ; + * .`, all in input order |
| Lambda2.LexWellFormed | assignment_2/main.py:26-64 | every VAR token is one letter or digit followed only by digits, every other token one symbol tagged with its kind, and there are no more tokens than characters |
| Lambda2.ParsedExpr | assignment_2/main.py:93-122 | the tokens left are a suffix of the input tokens, and a successful parse consumes at least one |
| Lambda2.ParsedParenthesised | assignment_2/main.py:99-105 | as for `ParsedExpr`: the parenthesis case leaves a suffix of its input, and consumes at least one token when it succeeds |
| Lambda2.ParsedApplication | assignment_2/main.py:124-127 | as for `ParsedExpr`: only the front of the list is consumed |
| Lambda2.ParsedLambda | assignment_2/main.py:129-138 | as for `ParsedExpr`: only the front of the list is consumed |
| Lambda2.Parser.ParseExpr | assignment_2/main.py:93-122 | the result and the token list it leaves are those `ParsedExpr` gives for the list it started from |
| Lambda2.Parser.ParseApplication | assignment_2/main.py:124-127 | the result and remaining list are those of `ParsedApplication` |
| Lambda2.Parser.ParseLambdaAbstraction | assignment_2/main.py:129-138 | the result and remaining list are those of `ParsedLambda` |
| Lambda2.ParseEmpty | assignment_2/main.py:94-95 | an empty list raises "Unexpected end of input"; a lambda with nothing after it raises "Expected variable" |
| Lambda2.ParseVariables | assignment_2/main.py:112-127 | `a b c …` parses to the right-nested chain `APP(a, APP(b, …))` and consumes every token |
| Lambda2.LeftoverTokensKept | assignment_2/main.py:99-106 | `(a) b` parses to `a` and leaves `b` behind unrejected |
| Lambda2.SubstNotFree | assignment_2/main.py:176-192 | substituting for a name that is not free returns the expression unchanged |
| Lambda2.SubstFreeVars | assignment_2/main.py:176-192 | the free names of the result lie between `FV(e) − {x}` and `FV(e) − {x} ∪ FV(r)` |
| Lambda2.SubstCaptureFree | assignment_2/main.py:176-192 | when no binder on the way to a free `x` binds a free name of `r`, the free names of the result are exactly `FV(e) − {x} ∪ FV(r)` |
| Lambda2.SubstCaptures | assignment_2/main.py:184-187 | substituting `y` for `x` in `位y.x` captures it: the result `位y.y` is closed |
| Lambda2.Renamer.AlphaConversion | assignment_2/main.py:140-154 | the renamed expression and the map as updated in place are those of `Alpha(e, old map)` |
| Lambda2.AlphaShape | assignment_2/main.py:143-152 | alpha conversion keeps the tree shape and renames every binder to its name plus a prime |
| Lambda2.AlphaMap | assignment_2/main.py:146-148 | afterwards the caller's map sends every binder of `e` to its primed name and is otherwise unchanged |
| Lambda2.AlphaFollowsVisitOrder | assignment_2/main.py:143-152 | a VAR is renamed by the map as it stands when visited: in `x (位x.x)` the first `x` is kept, in `(位x.x) x` the free `x` is renamed |
| Lambda2.BetaNormalForm | assignment_2/main.py:156-174 | an expression without an APP whose left side is a LAMBDA is returned equal to itself |
| Lambda2.BetaFreeVars | assignment_2/main.py:156-174 | one pass never introduces a free name |
| Lambda2.BetaOmega | assignment_2/main.py:159-164 | Omega has a redex and one pass returns it unchanged |
| Lambda2.Normalise | assignment_2/main.py:219-224 | the loop ends with `Normalised(e, 1000)` after at most 1000 calls of `beta_reduction`: one more than the number of changing passes, or 1000 |
| Lambda2.NormalisedIsIterate | assignment_2/main.py:219-224 | the final expression is the last pass result that differed from its input, every earlier pass changed the expression, and the loop stops early only at a fixpoint |
| Lambda2.NormalFormUnchanged | assignment_2/main.py:219-224 | an expression without a redex leaves the loop unchanged |
| Lambda2.NormaliseIdentityApplication | assignment_2/main.py:219-224 | `(位x.x) y` normalises to `y` |
| Lambda2.AlphaThenNormaliseCaptures | assignment_2/main.py:216-224 | alpha conversion followed by the loop turns `(位x.位y.x) y` into `位y'.y'`: the free `y` is captured |
| Lambda2.NormaliseOmega | assignment_2/main.py:219-224 | Omega leaves the loop after one call, unchanged |
| Lambda2.LexPrint | assignment_2/main.py:194-202 | the printed text of an expression with lexable names lexes back to the expression's token rendering |
| Lambda2.ParseExprTokens | assignment_2/main.py:93-138 | the parser reads an expression whose applications have a variable on the left back from its tokens, leaving what follows |
| Lambda2.PrintRoundTrip | assignment_2/main.py:194-202 | printing, lexing and parsing such an expression gives it back, with no token left |
| Lambda2.ParsedExprInDomain | assignment_2/main.py:93-138 | every expression `parse_expr` returns is VAR-headed, and its names are lexable when the tokens are ones the lexer emits, so every parse lies in the domain of `PrintRoundTrip` |
| Lambda2.ParsedTextReprints | assignment_2/main.py:194-202 | whenever a line parses, printing the result, lexing and parsing gives the same expression back with no token left |
| Lambda2.PrintedRedexRejected | assignment_2/main.py:99-106 | the printed form of `(位x.x) y` does not parse back: "Expected ')'" |
| Lambda3.Lexer | assignment_3/main.py:19-48 | the loop's token list is exactly `Lex(input)` |
| Lambda3.EmittedOutsideIdentifiers | assignment_3/main.py:24-42 | a non-identifier character emits exactly its own token if it is one of `( ) ; - :` and nothing otherwise; the LAMBDA branch is unreachable |
| Lambda3.LexBreak | assignment_3/main.py:26-42 | a non-identifier character ends the current identifier and splits the input into independently lexed halves |
| Lambda3.LexRun | assignment_3/main.py:24-25 | a run of alphanumerics, `λ` and `\` lexes to one VAR token holding all of it |
| Lambda3.LexTexts | assignment_3/main.py:19-48 | the VAR texts concatenate to exactly the input's identifier characters, and the other tokens to exactly its `( ) ; - :`, in order |
| Lambda3.LexWellFormed | assignment_3/main.py:19-48 | every VAR token is a non-empty run of identifier characters, every other token one of `( ) ; - :` of its kind, no LAMBDA token occurs, and there are no more tokens than characters |
| Lambda3.LexLambdaSign | assignment_3/main.py:24-36 | `λx.x` and `\x.x` lex to two VARs, `λx` (or `\x`) and `x` |
| Lambda3.ParsedExpr | assignment_3/main.py:101-139 | the tokens left are a suffix of the input tokens, and a successful parse consumes at least one |
| Lambda3.ParsedLambda | assignment_3/main.py:121-133 | the lambda case (variable, optional arrow and type, body) leaves a suffix of its input |
| Lambda3.ParsedGroup | assignment_3/main.py:106-117 | the same for the parenthesis loop |
| Lambda3.ParsedType | assignment_3/main.py:145-164 | the tokens left are a suffix of the input tokens |
| Lambda3.ParsedArrowType | assignment_3/main.py:154-164 | the arrow case of `parse_type` leaves a suffix of its input |
| Lambda3.ParsedArrowRight | assignment_3/main.py:157-162 | the right side of an arrow type and its `)` leave a suffix of the input |
| Lambda3.ParsedJudgement | assignment_3/main.py:86-95 | the tokens left are a suffix of the input tokens |
| Lambda3.Parser.ParseJudgement | assignment_3/main.py:86-95 | the result and remaining list are those of `ParsedJudgement` |
| Lambda3.Parser.ParseExpr | assignment_3/main.py:101-139 | the result and remaining list are those of `ParsedExpr`; the `while` loop keeps `ParsedGroup(tokens, sub_exprs)` equal to the final outcome |
| Lambda3.Parser.ParseType | assignment_3/main.py:145-164 | the result and remaining list are those of `ParsedType` |
| Lambda3.ParseEmpty | assignment_3/main.py:101-104 | `parse_expr`, `parse_type` and `parse_judgement` on an empty list raise "Unexpected end of input" |
| Lambda3.ParseTyTokens | assignment_3/main.py:145-164 | a variable or `( t1 - t2 )` is read back as the type and the rest is left; None is read back only before a token that cannot start a type |
| Lambda3.ParseExprTokens | assignment_3/main.py:101-139 | every expression the parser can build is read back from its tokens, whatever follows |
| Lambda3.ParseLamTokens | assignment_3/main.py:121-133 | `LAMBDA VAR [- type] body` is read back as the lambda, with None as the annotation when the arrow is absent |
| Lambda3.ParseItemsTokens | assignment_3/main.py:106-117 | a parenthesised list of expressions, each followed by `;`, is read back as the tuple of the expressions in order |
| Lambda3.ParseJudgementTokens | assignment_3/main.py:86-95 | an expression, a COLON and a type are read back as the judgement |
| Lambda3.ParsedExprParseable | assignment_3/main.py:101-139 | every expression `parse_expr` returns is `Parseable`: it never builds an LPAREN- or SEPARATOR-tagged tuple |
| Lambda3.ParsedLambdaParseable | assignment_3/main.py:121-133 | the same for the lambda case |
| Lambda3.ParsedGroupParseable | assignment_3/main.py:106-117 | the same for the parenthesis loop, given sub-expressions collected so far that are `Parseable` |
| Lambda3.ParsedTypeNone | assignment_3/main.py:145-164 | `parse_type` returns None only when the list is non-empty and starts with neither VAR nor `(`, and then pops nothing |
| Lambda3.ParsedJudgementRetokens | assignment_3/main.py:86-95 | every judgement `parse_judgement` returns is read back from its own tokens followed by the tokens it left |
| Lambda3.TypeErrors | assignment_3/main.py:145-164 | `parse_type` raises only "Unexpected end of input", "Expected '->' in type", "Expected ')' after type" or the IndexError of reading past the end |
| Lambda3.ExprErrors | assignment_3/main.py:101-139 | `parse_expr` never raises "Expected ':'"; without a LAMBDA token it raises only "Unexpected end of input" on an empty list and "Expected ')'" otherwise |
| Lambda3.GroupErrors | assignment_3/main.py:106-117 | the parenthesis loop never raises "Expected ':'"; on tokens with no RPAREN it always raises, and without a LAMBDA token what it raises is "Expected ')'" |
| Lambda3.JudgementColon | assignment_3/main.py:86-95 | "Expected ':' in judgement" is raised exactly when the expression parses and is not followed by a COLON, leaving the tokens after the expression |
| Lambda3.LambdaNeedsVariable | assignment_3/main.py:119-135 | a LAMBDA not followed by a VAR raises "Expected variable after lambda", with only the LAMBDA popped |
| Lambda3.ArrowTypeRejected | assignment_3/main.py:152-164 | a `(` type whose first part is followed by a token other than `-` raises "Expected '->' in type", and by nothing the IndexError |
| Lambda3.ArrowCloseRejected | assignment_3/main.py:152-164 | a `( t1 - t2` type followed by a token other than `)` raises "Expected ')' after type", and by nothing the IndexError |
| Lambda3.LexedJudgementErrors | assignment_3/main.py:86-139 | no line of text raises "Expected variable after lambda", and an expression read from text fails only with "Expected ')'", or "Unexpected end of input" when the line has no token |
| Lambda3.NoLambdaExpr | assignment_3/main.py:101-139 | without a LAMBDA token `parse_expr` builds no lambda |
| Lambda3.NoLambdaGroup | assignment_3/main.py:106-117 | the same for the parenthesis loop |
| Lambda3.LexedJudgementHasNoLambda | assignment_3/main.py:121-133 | no judgement parsed from text contains a lambda |
| Lambda3.ParseJudgementExample | assignment_3/main.py:86-95 | `x:a` parses to the judgement `(VAR x, VAR a)` |
| Lambda3.BetaReduceSucceeds | assignment_3/main.py:170-180 | `beta_reduction` succeeds exactly on expressions without a paren group or None; otherwise it raises |
| Lambda3.BetaReduceVarNames | assignment_3/main.py:170-180 | after success, the names are those of `e` without `var`, plus those of `arg` if `var` occurred |
| Lambda3.BetaReduceAbsent | assignment_3/main.py:170-180 | replacing a name that does not occur changes nothing |
| Lambda3.BetaReduceIdentity | assignment_3/main.py:170-180 | replacing a name by itself changes nothing |
| Lambda3.BetaReduceExamples | assignment_3/main.py:170-180 | a lambda does not shield its own parameter; a paren group raises TypeError, the empty group IndexError |
| Lambda3.PrintTySucceeds | assignment_3/main.py:186-202 | a type renders exactly when it contains no None |
| Lambda3.PrintExprSucceeds | assignment_3/main.py:186-202 | an expression renders exactly when it holds no None, no empty group and no None inside an annotation |
| Lambda3.PrintItemsSucceeds | assignment_3/main.py:195-197 | a group's items render exactly when each of them does |
| Lambda3.PrintTyLeaves | assignment_3/main.py:195-200 | a type renders as its leaf names joined by ` ARROW ` |
| Lambda3.ArrowsRenderAlike | assignment_3/main.py:195-200 | `(A - B) - C` and `A - (B - C)` render alike |
| Lambda3.OutputExample | assignment_3/main.py:186-210 | `(λx^a.x) : a ARROW a` and `f x : b` as printed judgements |
| Lambda1.Lexer | assignment_1/main.py:22-53 | the loop's token list is exactly `Lex(input)` |
| Lambda1.EmittedOutsideIdentifiers | assignment_1/main.py:27-47 | a non-alphanumeric character emits exactly its own token if it is one of `( ) ; + * .` and nothing otherwise; the `λ` branch is unreachable |
| Lambda1.LexBreak | assignment_1/main.py:29-47 | a non-alphanumeric character ends the current name and splits the input into independently lexed halves |
| Lambda1.LexRun | assignment_1/main.py:27-28 | a run of alphanumerics lexes to one VAR token holding all of it |
| Lambda1.LexTexts | assignment_1/main.py:22-53 | the VAR texts concatenate to exactly the input's alphanumerics, and the other tokens to exactly its `( ) ; + * .`, in order |
| Lambda1.LexWellFormed | assignment_1/main.py:22-53 | every VAR token is a non-empty alphanumeric run, every other token one symbol of its kind, no LAMBDA token occurs, and there are no more tokens than characters |
| Lambda1.ParsedExpr | assignment_1/main.py:59-95 | the tokens left are a suffix of the input tokens, and a successful parse consumes at least one |
| Lambda1.ParsedParenthesised | assignment_1/main.py:69-77 | as for `ParsedExpr`: the parenthesis case leaves a suffix of its input, and consumes at least one token when it succeeds |
| Lambda1.ParsedLambda | assignment_1/main.py:79-93 | as for `ParsedExpr`: the lambda case leaves a suffix of its input, and consumes at least one token when it succeeds |
| Lambda1.Parser.ParseExpr | assignment_1/main.py:59-95 | the result and remaining list are those of `ParsedExpr` |
| Lambda1.ParseLexed | assignment_1/main.py:59-95 | on lexed text: an empty list raises "Unexpected end of input"; a leading VAR is popped and returned; anything else raises "Unexpected token" with the list untouched |
| Lambda1.ParseLexedIsVariable | assignment_1/main.py:59-95 | no text parses to a closure |
| Lambda1.ParseTagTokens | assignment_1/main.py:59-95 | tokens whose texts are the kind names are read back as the variable or closure they spell, whatever follows |
| Lambda1.ParenthesesTransparent | assignment_1/main.py:69-77 | the parenthesis case returns the inner value itself |
| Lambda1.ParseClosureExample | assignment_1/main.py:79-93 | the kind-name tokens `LAMBDA x LPAREN y RPAREN` parse to a closure over `y` |
| Lambda1.NameRoundTrip | assignment_1/main.py:97-99 | an alphanumeric name lexes, parses and prints back to itself |
| Lambda1.PrintParsedText | assignment_1/main.py:97-99 | whenever text parses, it prints as the text of its first token, a non-empty alphanumeric run |
| Lambda1.OutputExample | assignment_1/main.py:97-109 | a variable prints with the "The standard format is: " prefix; a closure raises TypeError |

## Left out

- `read_archive` in the second and third versions reads zip and tar
  archives through library calls. It is I/O and is not modelled.
- `main` in all three versions reads the console, `sys.argv` or an
  archive, loops over lines, prints and catches exceptions. That is I/O
  and is not modelled. The one exception is the normalisation loop of the
  second version, which is `Lambda2.Normalise`.
- `output` in the first and third versions is modelled only as the string
  it prints (`Output`). The second version's `output` prints `Print(e)`
  unchanged.
- The debug print and the "Unrecognized character" message in the second
  version's lexer are console output. The model treats them as no-ops.
  The dropped character itself is modelled.
- Python's `str.isalpha`, `isdigit`, `isalnum` and `isspace` are
  approximated. Letters are ASCII letters, Greek letters and CJK
  ideographs. Digits are ASCII digits. White space is ASCII white space.
  Other Unicode letters and digits are not modelled. The facts the proofs
  use hold under the approximation: both lambda signs are letters, and `\`
  is neither alphanumeric nor white space.
- Exception messages are modelled by their kind, not by their text.
- The IndexErrors of `parse_type` at assignment_3/main.py:155 and 158 are
  folded into one error, `MissingToken`.
- In the first version the lambda case returns a Python closure. It is
  modelled as `Closure(body)`, holding only the body it captures. Calling
  it and its `__var__` attribute are not modelled. That branch of
  `to_standard_format` (assignment_1/main.py:100-103) is unreachable,
  because indexing a function raises TypeError first.
- In the second version, `alpha_conversion`, `beta_reduction`,
  `substitute` and `to_standard_format` raise on an unknown tag. The
  expression type has only the three constructors the parser builds, so
  these branches cannot be expressed.
- Lambda3.Expr does not model values that are neither the parser's
  output nor the LPAREN- and SEPARATOR-tagged tuples `beta_reduction`
  handles. A bare string renders as itself only inside those tuples and
  inside arrow types.
- Python's recursion limit is not modelled. Every parser, `substitute`,
  `beta_reduction`, `alpha_conversion` and the printers recurse once per
  level of nesting, and the second version's `parse_expr` and
  `parse_application` once per name in an application chain. No version
  raises the limit, so with CPython's default limit of 1000 frames, input
  deep or long enough raises RecursionError. `main` catches it as an
  Exception, prints it and "Exiting", and returns 1
  (assignment_2/main.py:227-230). The model's functions have no depth
  bound. For example, `Lambda2.ParseVariables` proves a successful parse
  for every list of names, however long.
- The ghost `calls` counter of `Lambda2.Normalise` counts the
  `beta_reduction` calls. The source has no such variable.
