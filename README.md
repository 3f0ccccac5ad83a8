# Ex2 spreadsheet core in Dafny

This project models the evaluation core of a small Java spreadsheet, Ex2. It covers five classes:

- **`CellEntry`** checks a cell name such as `A1` or `z12` and decodes its column and row.
- **`CellReferenceResolver`** turns a reference such as `D0` into `(column, row)` on a fixed 26 x 100 grid, or throws.
- **`SCell`** is one cell. It holds the raw text, a type and an order. Its static helpers classify a text as number, formula or text (`isNumber`, `isFormula`, `isForm`, `isText`, `isErr`). `computeForm` evaluates a formula by recursive descent over a shared cursor.
- **`ExpressionEvaluator`** is a shunting-yard evaluator with a number stack and an operator stack.
- **`Ex2Sheet`** is a fixed-size grid of cells:
  - `set` stores a text and then replaces every formula cell by the text of its value.
  - `evaluate(dd)` does the same replacement in passes ordered by a depth matrix.
  - `depth()` is a stub that marks formula cells with 1.

How the model represents the Java program:

- **Exceptions** become `Failure`s of a `Result` (module `Common`).
- **`null`** becomes `None` wherever the code tests for it.
- **Strings** are `seq<char>`. `Integer.parseInt`, `String.trim`, `replaceAll("\\s", "")` and the input `Double.parseDouble` accepts are written out in module `JavaLang`.
- **Doubles** are the datatype `Double`: an exact `real` (`Finite`), or `NonFinite`, which stands for Java's infinities and NaN.
- **`String.valueOf(double)`** is a function parameter `render`. It is assumed to produce text that `Double.parseDouble` accepts (`ValidRenderer`).

Both evaluators are proved against one reference meaning. Module `Arithmetic` defines left-recursive expression trees. `Print` gives the text a user types for a tree and `Value` gives its exact value. Two results tie the evaluators to it:

- the recursive descent of `SCell` computes `Value` on `Print(e)`;
- the stack machine of `ExpressionEvaluator` does the same, or reports a division by zero.

Where the code does something else than the system's design describes, the model follows the code:

- There is no cell-reference substitution. A reference as the first operand, or directly after an operator, makes `computeForm` return `ERR_FORM`. A blank stops the descent, and the rest of the text is never read: `=1 + A1` gives `1.0`.
- There is no cycle detection, no real depth computation and no unary minus.
- `get(String)` counts rows from 1, while `CellReferenceResolver` counts them from 0.

| file | module |
|---|---|
| `common.dfy` | `Common`: `Option`, `Result` |
| `java_lang.dfy` | `JavaLang`: the Java library behaviour the core relies on |
| `ex2_utils.dfy` | `Ex2Utils`: the constants the core reads |
| `cell_entry.dfy` | `CellEntry` |
| `cell_reference_resolver.dfy` | `CellReferenceResolver` |
| `arithmetic.dfy` | `Arithmetic`: the reference meaning of a formula |
| `scell.dfy`, `scell_proofs.dfy` | `SCell` and its properties (`SCellProofs`) |
| `expression_evaluator.dfy`, `expression_evaluator_proofs.dfy` | `ExpressionEvaluator` and its properties (`EvaluatorProofs`) |
| `ex2_sheet.dfy` | `Ex2Sheet` |

## Model

| member | source | states |
|---|---|---|
| CellEntry.IsValid | src/CellEntry.java:5-24 | `isValid` is false for `null`, and true exactly for one ASCII letter of either case followed by one or two digits |
| CellEntry.Column | src/CellEntry.java:27-44 | the column is -1 exactly for an invalid name; otherwise it is the case-insensitive alphabet position of the letter, in 0..25 |
| CellEntry.GetX | src/CellEntry.java:27-44 | the 26-step loop of `getX` returns `Column`, so -1 for an invalid name and the letter's position otherwise |
| CellEntry.GetY | src/CellEntry.java:48-56 | `getY` is -1 exactly for an invalid name; otherwise it is the decimal value of the digits after the letter, in 0..99 |
| CellEntry.NameRoundTrip | src/CellEntry.java:11-13 | for every column below 26 and row below 100, the name letter+digits is valid and decodes back to that column and row |
| CellEntry.NameOfDecoded | src/CellEntry.java:27-56 | re-encoding a decoded valid name gives the name back, with an upper-case letter and the row's leading zero dropped |
| CellReferenceResolver.ColumnIndex | src/CellReferenceResolver.java:45-53 | `columnToIndex` gives the position of a one-letter upper-case name and 0 for anything else; it is always in 0..25 |
| CellReferenceResolver.ColumnToIndex | src/CellReferenceResolver.java:45-53 | the loop over the 26 names computes `ColumnIndex` |
| CellReferenceResolver.Resolve | src/CellReferenceResolver.java:12-37 | `null` or a blank reference fails first; success holds exactly when the row part parses as an int in 0..99; the result is then (column, row), column first and the row unshifted |
| CellReferenceResolver.ResolveCellReference | src/CellReferenceResolver.java:12-37 | the early returns of `resolveCellReference`, in the order of the code, compute `Resolve` |
| CellReferenceResolver.ResolveRoundTrip | src/CellReferenceResolver.java:29-36 | every cell of the 26 x 100 grid resolves from its name to its own column and row |
| CellReferenceResolver.OneCharacterFails | src/CellReferenceResolver.java:18-23 | a one-character reference always fails, and fails with the format error when that character is not blank |
| CellReferenceResolver.NonDigitInRowFails | src/CellReferenceResolver.java:29 | a row part with any non-digit after an optional leading sign fails, so `AA1`, `1A` and `  A1  ` fail |
| CellReferenceResolver.NonUpperColumnIsZero | src/CellReferenceResolver.java:45-53 | a resolved reference whose first character is not an upper-case letter has column 0 |
| CellReferenceResolver.RowTooLargeFails | src/CellReferenceResolver.java:31-33 | a row from 100 up to `Integer.MAX_VALUE` parses but fails as out of bounds |
| SCell.Classify | src/SCell.java:55-63 | the type of a text is NUMBER exactly when it matches `-?\d+(\.\d+)?`, FORM exactly when it starts with `=`, TEXT otherwise |
| SCell.NumberPatternIsNumber | src/SCell.java:57-59 | a text matching the number pattern is accepted by `Double.parseDouble` and does not start with `=`, so exactly one branch of `setData` applies |
| SCell.SCell.constructor | src/SCell.java:17-21 | a new cell holds the text verbatim, with type TEXT and order 0, whatever the text |
| SCell.SCell.SetData | src/SCell.java:52-64 | `setData` stores the text verbatim, sets the type to `Classify` of it and keeps the order |
| SCell.SCell.GetData | src/SCell.java:70-72 | `getData` returns the stored text |
| SCell.SCell.ToString | src/SCell.java:44-46 | `toString` returns the stored text |
| SCell.SCell.GetType | src/SCell.java:78-80 | `getType` returns the stored type |
| SCell.SCell.SetType | src/SCell.java:86-88 | `setType` sets the type and leaves text and order unchanged |
| SCell.SCell.GetOrder | src/SCell.java:28-30 | `getOrder` returns the stored order |
| SCell.SCell.SetOrder | src/SCell.java:36-38 | `setOrder` sets the order and leaves text and type unchanged |
| SCell.IsFormula | src/SCell.java:101-118 | an accepted formula starts with `=`, has at least one character after it and has no run of two letters |
| SCell.IsText | src/SCell.java:122-124 | `isText` is exactly the negation of `isForm` |
| SCell.IsForm | src/SCell.java:119-121 | only a non-empty text is a form |
| SCell.IsErr | src/SCell.java:125-127 | a text `isErr` accepts, one of the two error strings, has at least 9 characters and ends in `!` |
| SCell.ExprParse | src/SCell.java:153-164 | a successful `parseExpression` moves the cursor forward |
| SCell.ParseExpression | src/SCell.java:153-164 | the cursor loop of `parseExpression` computes `ExprParse` |
| SCell.ParseTerm | src/SCell.java:166-177 | the cursor loop of `parseTerm` computes `TermParse` |
| SCell.ParseFactor | src/SCell.java:179-191 | `parseFactor` computes `FactorParse`: a group, or the run of digits and dots read by `Double.parseDouble` |
| SCell.FormValue | src/SCell.java:133-146 | `computeForm` produces a value only for a text that `isFormula` accepts and whose descent succeeds |
| SCell.FormText | src/SCell.java:133-146 | `computeForm` returns `ERR_FORM` whenever no value is produced |
| SCell.ComputeFormValue | src/SCell.java:133-151 | the code of `computeForm` up to the value computes `FormValue` |
| SCell.ComputeForm | src/SCell.java:133-146 | `computeForm` returns `FormText` |
| SCellProofs.FactorParsesPrint | src/SCell.java:179-191 | `parseFactor` reads a printed literal or group completely and returns its value |
| SCellProofs.TermParsesPrint | src/SCell.java:166-177 | `parseTerm` reads a printed product left to right and reaches the end of it with its value |
| SCellProofs.ExprParsesPrint | src/SCell.java:153-164 | `parseExpression` reads a printed sum of products left to right and reaches the end of it with its value |
| SCellProofs.DescentComputesValue | src/SCell.java:148-191 | the descent computes the exact value of every printed expression, and stops in front of a blank or any other character no rule consumes |
| SCellProofs.GroupSkipsCloser | src/SCell.java:180-184 | after a group's expression, one character is skipped whatever it is |
| SCellProofs.LetterFactorFails | src/SCell.java:186-190 | an operand that starts with a letter is an empty number run, and `parseFactor` throws |
| SCellProofs.ReferenceAfterOperatorFails | src/SCell.java:153-190 | a cell reference directly after `+` or `-` makes the descent fail |
| SCellProofs.ReferenceAfterProductOperatorFails | src/SCell.java:165-191 | a cell reference directly after `*` or `/` makes the product, and so the descent, fail |
| SCellProofs.TextAfterBlankIgnored | src/SCell.java:133-191 | behind a printed expression, a blank ends the descent: the text after it is never read, and a formula gives the expression's value |
| SCellProofs.ReferenceAfterBlankIgnored | src/SCell.java:104-191 | `=1 + A1` is a formula and evaluates to 1, because the reference after the blank is never read |
| SCellProofs.LeadingReferenceIsError | src/SCell.java:134-145 | a formula whose first operand is a cell reference always gives `ERR_FORM` |
| SCellProofs.FormulaComputesValue | src/SCell.java:133-146 | a printed expression behind `=` that `isFormula` accepts gives its exact value |
| SCellProofs.ErrorStringsAreText | src/SCell.java:89-127 | both error strings are error texts, neither is a formula or a number, and `Double.parseDouble` refuses `ERR_FORM` |
| SCellProofs.SumIsFormula | src/SCell.java:104-107 | `=1+2` matches the formula pattern |
| SCellProofs.SpacedSumIsFormula | src/SCell.java:104-107 | blanks around an operator are allowed: `=1 + 2` is a formula |
| SCellProofs.ReferenceProductIsFormula | src/SCell.java:104-116 | a reference is an operand: `=A1*2` is a formula |
| SCellProofs.FormulaShapesRefused | src/SCell.java:104-116 | `1+2`, `=1+` and `=AB1` are not formulas |
| ExpressionEvaluator.Precedence | src/ExpressionEvaluator.java:68-72 | `+` and `-` have precedence 1, `*` and `/` have 2, and every other character is below both |
| ExpressionEvaluator.Apply | src/ExpressionEvaluator.java:74-84 | `applyOperation` fails with an invalid operator exactly for a non-operator, and with division by zero exactly for `/` by 0 |
| ExpressionEvaluator.Reduce | src/ExpressionEvaluator.java:40 | a reduction pops one operator and two numbers and pushes one; with fewer than two numbers it fails with an empty stack |
| ExpressionEvaluator.ReduceWhile | src/ExpressionEvaluator.java:39-41 | a reducing loop stops only where its condition fails, having popped operators only from the top |
| ExpressionEvaluator.ReduceLoop | src/ExpressionEvaluator.java:47-49 | each `while` loop that reduces computes `ReduceWhile` |
| ExpressionEvaluator.EvaluateExpression | src/ExpressionEvaluator.java:12-62 | the cursor loop over the two stacks computes `Run` from position 0 with empty stacks |
| ExpressionEvaluator.Evaluate | src/ExpressionEvaluator.java:4-10 | `evaluate` removes every blank and then runs the main loop |
| EvaluatorProofs.ApplyAdd | src/ExpressionEvaluator.java:74-77 | on finite operands `+` and `-` give the exact sum and difference, with the earlier operand first |
| EvaluatorProofs.ApplyMul | src/ExpressionEvaluator.java:78-81 | on finite operands `*` gives the exact product, and `/` gives the exact quotient or the division-by-zero failure |
| EvaluatorProofs.TermMachine | src/ExpressionEvaluator.java:20-51 | reading a printed product leaves its last operator pending, with its two operands on the number stack, or stops with division by zero |
| EvaluatorProofs.ExprMachine | src/ExpressionEvaluator.java:20-51 | reading a printed sum of products leaves at most its last `+` or `-` and one product pending, or stops with division by zero |
| EvaluatorProofs.PrintedEvaluates | src/ExpressionEvaluator.java:12-84 | the stack machine computes the exact value of every printed expression, with precedence, left grouping and parentheses, or fails with division by zero |
| EvaluatorProofs.EvaluatesWithBlanks | src/ExpressionEvaluator.java:4-10 | any text that is a printed expression once its blanks are removed evaluates to that expression's value |
| EvaluatorProofs.BlanksIgnored | src/ExpressionEvaluator.java:6 | removing blanks first changes nothing |
| EvaluatorProofs.OthersSkipped | src/ExpressionEvaluator.java:20-53 | a stretch of characters other than digits, dots, parentheses and operators leaves both stacks as they are |
| EvaluatorProofs.LiteralRun | src/ExpressionEvaluator.java:21-29 | a maximal run of digits and dots is read as one number and pushed |
| EvaluatorProofs.NoNumbersIsEmptyStack | src/ExpressionEvaluator.java:57-61 | a text without digits or dots, including the empty text, fails with an empty stack |
| EvaluatorProofs.FinishOneNumber | src/ExpressionEvaluator.java:56-59 | one number and one pending operator fail with an empty stack |
| EvaluatorProofs.LeadingSignFails | src/ExpressionEvaluator.java:46-61 | a leading `+` or `-` before a term has no left operand and fails, so there is no unary minus |
| EvaluatorProofs.UnmatchedCloseFails | src/ExpressionEvaluator.java:37-43 | a `)` without its `(` pops an empty operator stack |
| EvaluatorProofs.UnclosedGroupFails | src/ExpressionEvaluator.java:56-61 | an unclosed `(` at the start fails with an empty stack, or with division by zero inside the group |
| EvaluatorProofs.UnclosedGroupAfterOperand | src/ExpressionEvaluator.java:56-83 | an unclosed `(` after an operand reaches `applyOperation`, which rejects `(` as an invalid operator |
| EvaluatorProofs.ProductFirst | src/ExpressionEvaluator.java:46-51 | `2+3*4` is 14 |
| EvaluatorProofs.GroupFirst | src/ExpressionEvaluator.java:37-43 | `(2+3)*4` is 20 |
| EvaluatorProofs.LeftToRight | src/ExpressionEvaluator.java:46-51 | `8-3-2` is 3 |
| EvaluatorProofs.DivideByZero | src/ExpressionEvaluator.java:79-80 | `1/0` fails with division by zero |
| Ex2Sheet.Sheet.constructor | src/Ex2Sheet.java:9-16 | an x by y sheet has width x and height y, and every cell holds the empty text |
| Ex2Sheet.Sheet.Width | src/Ex2Sheet.java:73-76 | the width is the number of columns |
| Ex2Sheet.Sheet.Height | src/Ex2Sheet.java:78-81 | the height is the column length, and reading it fails on a sheet without columns |
| Ex2Sheet.Sheet.IsIn | src/Ex2Sheet.java:133-136 | `isIn` holds exactly for positions on the sheet, and never reads the height of a sheet without columns |
| Ex2Sheet.Sheet.Get | src/Ex2Sheet.java:51-57 | `get(x, y)` is the stored cell on the sheet and `null` elsewhere |
| Ex2Sheet.Sheet.GetFindsCells | src/Ex2Sheet.java:51-57 | in a filled sheet, `get(x, y)` finds a cell exactly when `isIn(x, y)` |
| Ex2Sheet.Sheet.GetByName | src/Ex2Sheet.java:59-71 | `get(cords)` only finds a cell for a name whose rest parses as an int, at column first char minus `A` and row that int minus 1 |
| Ex2Sheet.Sheet.NameLookup | src/Ex2Sheet.java:59-71 | every cell is found by its column letter and its row counted from 1 |
| Ex2Sheet.Sheet.RowZeroIsNull | src/Ex2Sheet.java:62-66 | row 0 names no cell |
| Ex2Sheet.Sheet.Eval | src/Ex2Sheet.java:193-207 | `eval(x, y)` is the empty text off the sheet, and never starts with `=` |
| Ex2Sheet.Sheet.Value | src/Ex2Sheet.java:22-32 | `value(x, y)` always equals `eval(x, y)` |
| Ex2Sheet.EvalTextCases | src/Ex2Sheet.java:197-206 | a text that is no formula comes back trimmed; a formula gives the parsed text of `computeForm`, or `"Error"`, and never `ERR_FORM` |
| Ex2Sheet.EvalTextIsNoFormula | src/Ex2Sheet.java:193-207 | what `eval(x, y)` returns never starts with `=` |
| Ex2Sheet.JavaDoubleIsNoFormula | src/Ex2Sheet.java:200-201 | no text `Double.parseDouble` accepts starts with `=` |
| Ex2Sheet.SettleIsIdempotent | src/Ex2Sheet.java:38-46 | a cell `eval()` has replaced no longer starts with `=`, so a second `eval()` changes nothing |
| Ex2Sheet.Sheet.Put | src/Ex2Sheet.java:42 | writing a new cell at one position changes only that position: it holds a fresh `TEXT` cell of order 0 with the new text, and every other position keeps its cell object |
| Ex2Sheet.Sheet.SettleCell | src/Ex2Sheet.java:38-46 | a cell whose text starts with `=` is replaced by a fresh `TEXT` cell of order 0 holding its evaluation; every other cell, and a cell without `=`, keeps its cell object and text |
| Ex2Sheet.Sheet.EvalAll | src/Ex2Sheet.java:34-49 | `eval()` replaces exactly the cells starting with `=` by their evaluation and leaves no formula behind |
| Ex2Sheet.Sheet.Set | src/Ex2Sheet.java:83-89 | off the sheet nothing changes; on it the text is stored, every cell is then settled, and no cell starts with `=` |
| Ex2Sheet.RowMax | src/Ex2Sheet.java:124-128 | the row maximum is at least the start value and every entry, and is one of them |
| Ex2Sheet.GridMax | src/Ex2Sheet.java:121-131 | the maximum is at least 0 and every entry, and is 0 or one of the entries |
| Ex2Sheet.Sheet.MaxDepth | src/Ex2Sheet.java:121-131 | the loops of `maxDepth` compute `GridMax` from 0 |
| Ex2Sheet.Sheet.StepCell | src/Ex2Sheet.java:100-115 | at depth d, a cell of entry -1 becomes `"Error"` and a formula of entry d is settled; no other cell changes |
| Ex2Sheet.Sheet.Pass | src/Ex2Sheet.java:98-117 | one pass applies that step to every cell |
| Ex2Sheet.PassAdvances | src/Ex2Sheet.java:97-117 | the pass at depth d takes every cell from its state after d passes to its state after d + 1 |
| Ex2Sheet.PassesComplete | src/Ex2Sheet.java:97 | after the passes up to the largest entry, every cell is in its final state |
| Ex2Sheet.Sheet.Evaluate | src/Ex2Sheet.java:91-119 | a missing or wrongly sized matrix is refused before any cell changes; otherwise entry -1 gives `"Error"`, a formula of entry 0 or more is settled and every other cell is kept |
| Ex2Sheet.Sheet.Depth | src/Ex2Sheet.java:138-154 | `depth()` is a fresh width x height matrix with 1 exactly where the text starts with `=`, and it fails on a sheet without columns |
| Ex2Sheet.PassesNeverEndAtIntMax | src/Ex2Sheet.java:97 | with an entry of `Integer.MAX_VALUE`, the `int` counter wraps and the passes never end |
| Ex2Sheet.PassesEndBelowIntMax | src/Ex2Sheet.java:97 | below `Integer.MAX_VALUE`, the `int` counter makes the same number of passes as an unbounded one |

## Left out

- Reading and writing files (`load`, `save`) is not modelled: it is I/O.
- Java's doubles are exact `real`s here. IEEE rounding, overflow to infinity and signed zero are not modelled, and NaN and the infinities are one value, `NonFinite`.
- `SCell.FormValue`: every operation with a non-finite operand gives `NonFinite`. In Java a finite number divided by an infinity is a zero, so `=1/(1/0)` gives `0.0` there but `NonFinite` here; other IEEE rules for infinities (such as `1/0 - 1/0` being NaN) are collapsed the same way.
- `String.valueOf(double)` is the parameter `render`. It is assumed to produce text that `Double.parseDouble` accepts and that reads back as the same value, so parsing what `computeForm` returns gives back its value.
- `Character.isDigit` and `\s` are modelled on ASCII. Unicode digits and blanks, and UTF-16 surrogate pairs, are not modelled.
- `Ex2Sheet.Sheet.constructor`: negative sizes, for which Java throws `NegativeArraySizeException`, are excluded by its precondition.
- The no-argument constructor of `Ex2Sheet` is not modelled: it reads `Ex2Utils.WIDTH` and `Ex2Utils.HEIGHT`, which are not part of this model.
- `Ex2Sheet.Sheet.Evaluate`: `null` rows inside the depth matrix, for which Java throws `NullPointerException`, are not modelled.
- The `catch` blocks of `eval()` and `evaluate` are not modelled: `eval(x, y)` catches every exception itself, so they cannot run.
- Aliasing through the cell objects that `get` hands out is not modelled: the model reads cells through the sheet only.
- `Ex2Sheet.Sheet.Set`: a `null` text, for which Java's `setData` throws `NullPointerException`, cannot be passed; a `string` is never `null`.
- `Ex2Sheet.Sheet.EvalAll`, `Ex2Sheet.Sheet.Set` and `Ex2Sheet.Sheet.StepCell` state the texts of the cells they replace, not that the new cells are fresh `TEXT` cells of order 0; `Put` and `SettleCell`, through which every replacement goes, state that.
- `Sheet`, `Cell` and `Index2D` are interfaces that are not part of this model. `Ex2Utils` is modelled only by the constants the core reads.
- `SCell.IsFormula`: the contract states only necessary conditions. The exact accepted language is the recogniser itself, shown by the example lemmas.
- `EvaluatorProofs.BlanksIgnored`: how removing blanks can join two number runs into one (`1 2` becomes `12`) is not stated as a lemma.

## Findings

| source | as written | input that shows it | evidently intended | confidence | as-written member | corrected member |
|---|---|---|---|---|---|---|
| src/Ex2Sheet.java:97 | the pass counter is an `int` compared with `<=` against `maxDepth(dd)`, so at `Integer.MAX_VALUE` it wraps to `Integer.MIN_VALUE` and the test stays true | a depth matrix with one entry equal to `Integer.MAX_VALUE` | one pass per depth from 0 to the largest entry, and then the loop ends | high; not executed | Ex2Sheet.PassesNeverEndAtIntMax | Ex2Sheet.Sheet.Evaluate |
