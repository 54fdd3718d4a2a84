# Recursive-descent expression parser, modelled in Dafny

This project models the `parsing` package. The package is a small pipeline: a whitespace-skipping character cursor
(`RDInput`), the binary operators (`BinOp`), an LL(1) recursive-descent parser that builds expression trees (`Expr`),
and an evaluator over a variable environment (`Environment`).

The grammar is

    Expression := Term (('+'|'-') Term)*
    Term       := Factor (('*'|'/') Factor)*
    Factor     := ident | int | '(' Expression ')'

Modules, one per concern:

- `Failures` (`failures.dfy`): `Result`, `Outcome` and `Option`. It also holds `SyntaxError`, the two
  `RuntimeException`s the parser throws: "expected c but found x" from `match`, and "expected a factor".
- `Input` (`input.dfy`): the cursor.
  - The `java.io.Reader` becomes the sequence `src` of the characters it would deliver, plus the count `pos`
    already delivered.
  - Pure functions (`SpanEnd`, `NextNonWs`, `Advance`, `IdentEnd`, `NumberEnd`, `DecimalValue`) describe the cursor
    by the index of its lookahead.
  - The class `RDInput` keeps the fields of the Java class. Each method is proved against those functions.
  - The invariant `Valid()` is kept by every public operation: the lookahead is never whitespace unless the input is
    exhausted.
- `Operators` (`operators.dfy`): the enum, `apply` with Java's truncating division, and `BinOp.parse` on the cursor.
- `Environments` (`environment.dfy`): the class `Environment` over a `map<string, int>`. A name never bound reads
  as 0.
- `Ast` (`ast.dfy`): the three record variants as one datatype, and `eval` as the function `Eval`.
- `Parser` (`parser.dfy`): the parser in two forms, proved to agree.
  - `ExprAt`, `TermAt` and `FactorAt` are the meaning of `parse`, `parseTerm` and `parseFactor`. Each is a function
    of the input and the lookahead index. `ExprTail` and `TermTail` are the two `while` loops as left folds.
  - `Parse`, `ParseTerm` and `ParseFactor` are the imperative procedures on the mutable cursor. Their loop
    invariants tie them to those functions.
  - Termination follows the measure (input left, level).
- `Printer` (`printer.dfy`): a reference printer that writes every binary node in parentheses. It is used to state
  that parsing inverts printing for every tree. The package has no printer.
- `Examples` (`examples.dfy`): concrete inputs, covering precedence, left associativity, whitespace, both syntax
  errors, division by zero, unbound names, and a run through the cursor and an environment as `Demo.java` does.

## Model

All source paths are under `src/main/java/parsing/`.

| member | source | states |
|---|---|---|
| Input.SpanEnd | src/main/java/parsing/RDInput.java:102-106 | the scan stops at the first character at or after k that fails the test, or at the end; every character it passes satisfies the test |
| Input.NextNonWs | src/main/java/parsing/RDInput.java:102-106 | skipping whitespace never moves back and always stops on a valid lookahead (not whitespace, or the end) |
| Input.Advance | src/main/java/parsing/RDInput.java:32-35 | skip lands on a valid lookahead; it moves strictly forward when input remains and stays put at the end |
| Input.IdentEnd | src/main/java/parsing/RDInput.java:57-67 | an identifier takes at least its first letter and stops before a character that is neither letter nor digit |
| Input.NumberEnd | src/main/java/parsing/RDInput.java:75-84 | an integer literal takes at least its first digit and stops before a non-digit (whitespace included) |
| Input.DecimalValueStep | src/main/java/parsing/RDInput.java:79 | appending a digit multiplies the value so far by ten and adds the digit |
| Input.RDInput.constructor | src/main/java/parsing/RDInput.java:10-13 | a new cursor is valid, and its lookahead is the first non-whitespace character of the source |
| Input.RDInput.Peek | src/main/java/parsing/RDInput.java:18-20 | peek is the source character at the lookahead index, or NUL at the end; it is never whitespace before the end; it changes nothing |
| Input.RDInput.AtEnd | src/main/java/parsing/RDInput.java:25-27 | atEnd holds iff the lookahead index is past the last character; it changes nothing |
| Input.RDInput.Skip | src/main/java/parsing/RDInput.java:32-35 | skip keeps the invariant and moves the lookahead exactly as Advance says |
| Input.RDInput.Match | src/main/java/parsing/RDInput.java:43-49 | on the expected character it acts exactly as skip; otherwise it fails with that character and the one found, and changes nothing |
| Input.RDInput.ReadIdent | src/main/java/parsing/RDInput.java:57-67 | the result is the maximal letter-or-digit run starting at the letter lookahead: non-empty, starting with that letter, all letters or digits; the cursor then rests past trailing whitespace |
| Input.RDInput.ReadInt | src/main/java/parsing/RDInput.java:75-84 | the result is the base-10 value of the maximal digit run at the lookahead; the cursor then rests past trailing whitespace |
| Input.RDInput.ReadNext | src/main/java/parsing/RDInput.java:86-100 | takes exactly one source character while any remain; otherwise sets NUL and the end flag |
| Input.RDInput.SkipWhitespace | src/main/java/parsing/RDInput.java:102-106 | from any consistent state, restores the invariant and stops on the first non-whitespace character or the end |
| Operators.TruncDiv | src/main/java/parsing/BinOp.java:13 | Java division: the remainder takes the sign of the dividend and is smaller than the divisor in magnitude, i.e. the quotient rounds toward zero |
| Operators.Apply | src/main/java/parsing/BinOp.java:8-15 | plus, minus and times are exact; division truncates toward zero; only division by zero fails |
| Operators.OpOf | src/main/java/parsing/BinOp.java:24-41 | exactly '+', '-', '*' and '/' denote operators, each the one whose character it is |
| Operators.OpOfOpChar | src/main/java/parsing/BinOp.java:24-41 | every operator is recognised from its own character (OpOf inverts OpChar) |
| Operators.ParseOp | src/main/java/parsing/BinOp.java:24-41 | an operator character yields its operator and is consumed by one skip; any other character yields none and leaves the cursor unchanged |
| Environments.Environment.constructor | src/main/java/parsing/Environment.java:7-9 | a fresh environment has no bindings; every name reads as 0 |
| Environments.Environment.Bind | src/main/java/parsing/Environment.java:11-13 | the name now reads as the new value, overwriting any earlier binding; every other name keeps its value |
| Environments.Environment.Lookup | src/main/java/parsing/Environment.java:15-17 | a bound name reads as its value and an unbound one as 0; lookup never fails and changes nothing |
| Ast.Eval | src/main/java/parsing/Expr.java:64-82 | a tree without division always evaluates; being a function, evaluation changes neither the tree nor the environment |
| Ast.EvalDependsOnlyOnVars | src/main/java/parsing/Expr.java:64-82 | two environments that agree on a tree's names give it the same value or the same error |
| Parser.ExprAt | src/main/java/parsing/Expr.java:14-22 | a parsed expression consumes input and stops on a valid lookahead that is neither an additive nor a multiplicative operator |
| Parser.ExprTail | src/main/java/parsing/Expr.java:16-20 | the loop of parse only moves forward and exits on a lookahead that is not '+' or '-' |
| Parser.TermAt | src/main/java/parsing/Expr.java:30-38 | a parsed term consumes input and stops on a lookahead that is not '*' or '/' |
| Parser.TermTail | src/main/java/parsing/Expr.java:32-36 | the loop of parseTerm only moves forward and exits on a lookahead that is not '*' or '/' |
| Parser.FactorAt | src/main/java/parsing/Expr.java:47-62 | a letter or digit lookahead always gives a factor; "expected a factor" arises iff the lookahead starts no factor (NUL at the end included) or a parenthesised expression reports it |
| Parser.ParenFactor | src/main/java/parsing/Expr.java:54-58 | a '(' factor succeeds iff the inner expression parses and ')' follows; the result is the inner tree, with no node added |
| Parser.Parse | src/main/java/parsing/Expr.java:14-22 | parse on the cursor keeps the invariant, never moves back, and returns the tree or error ExprAt gives, leaving the lookahead where ExprAt says |
| Parser.ParseTerm | src/main/java/parsing/Expr.java:30-38 | parseTerm on the cursor agrees with TermAt in the same way |
| Parser.ParseFactor | src/main/java/parsing/Expr.java:47-62 | parseFactor on the cursor agrees with FactorAt in the same way |
| Printer.DecimalRoundTrip | src/main/java/parsing/RDInput.java:75-84 | reading back the decimal digits of any natural number gives the number |
| Printer.FactorRoundTrip | src/main/java/parsing/Expr.java:47-62 | any printed tree followed by a delimiter parses back as one factor, to the same tree, ending just after it |
| Printer.ParseRoundTrip | src/main/java/parsing/Expr.java:14-62 | parsing the printed form of any well-formed tree gives back the same tree and consumes the whole input |
| Examples.LeftAssociative | src/main/java/parsing/Expr.java:14-22 | 8-3-2 parses as (8-3)-2 and evaluates to 3 |
| Examples.Precedence | src/main/java/parsing/Expr.java:14-38 | 2+3*4 parses with '+' at the root and '*' in its right child and evaluates to 14 |
| Examples.Parenthesised | src/main/java/parsing/Expr.java:54-58 | (2+3)*4 parses with the sum as the left operand of '*' and evaluates to 20 |
| Examples.WhitespaceIgnored | src/main/java/parsing/RDInput.java:102-106 | " 1 + 2 " and "1+2" give the same tree |
| Examples.TrailingInputLeft | src/main/java/parsing/Expr.java:16-21 | on "1 2", parse returns 1 without error and leaves the lookahead on the 2 |
| Examples.MissingFactor | src/main/java/parsing/Expr.java:59-61 | "(1+" fails with "expected a factor", the lookahead being NUL at the end |
| Examples.MissingParenthesis | src/main/java/parsing/RDInput.java:43-49 | "(1" fails in match(')'), which finds NUL |
| Examples.DivideByZero | src/main/java/parsing/BinOp.java:13 | 5/0 parses, and evaluating it fails with division by zero |
| Examples.RunXPlusOne | src/main/java/parsing/Environment.java:11-17 | on a fresh cursor over "x+1", parse reaches the end of input; the tree evaluates to 1 while x is unbound and to 42 once x is bound to 41 |

## Left out

- The `IOException` branch of `readNext` (RDInput.java:96-99). The model's source is a sequence, which cannot fail.
  A failing read behaves exactly like the end of input, and the model has that case.
- `Character.isLetter`, `isDigit` and `isLetterOrDigit` are restricted to ASCII letters and digits. Java also accepts
  other Unicode letters and digits, which would also break `ch - '0'` for non-ASCII digits. `isWhitespace` is
  modelled in full.
- Java `char` is a UTF-16 code unit; Dafny's `char` is a Unicode scalar value. Lone surrogate code units in the
  source are therefore not representable.
- Input.RDInput.ReadInt: does not model 32-bit wrap-around. Java's `int` wraps, and a literal above 2147483647
  yields a wrapped value; the model uses unbounded integers.
- Operators.Apply: does not model 32-bit wrap-around of `+`, `-` and `*`, nor `Integer.MIN_VALUE / -1`. All are
  unbounded in the model.
- Operators.TruncDiv: works on unbounded integers, so `Integer.MIN_VALUE / -1` does not wrap back to
  `MIN_VALUE`.
- Exceptions become values.
  - `match` returns `Outcome`, and the parser and the evaluator return `Result`. Unwinding is not modelled.
  - After a syntax error the cursor is only known to satisfy the invariant and not to have moved back. Where
    exactly it stops is not specified.
- `BinOp.parse` returning `null` is `None`. Its callers test the lookahead first, so the parser treats that branch as
  unreachable and proves it so.
- The Java constructor relies on the default field values (`'\0'`, `false`) and then calls `skip()`. The model
  inlines the two steps of `skip()` there, because the public `Skip` requires an already valid cursor.
- The records' generated `toString`, `equals` and `hashCode` are not modelled; datatype equality plays their part.
  The `HashMap` internals are replaced by a `map`.
- `Demo.java` is not modelled as such; it only prints. `Examples.RunXPlusOne` follows its steps on a smaller input.
- `Printer.Print`, `Printer.NatToDigits` and `Printer.WellFormed` are not in the package. They exist to state the
  round trip. Only non-negative numbers and identifiers made of ASCII letters and digits can be printed and parsed
  back.
