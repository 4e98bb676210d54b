# A Dafny model of Goblin++

Goblin++ is a small scientific language whose programs leave evidence: what they printed, which files they
read, what state they ended in. It has two engines, an interpreter and a generator of native code, and a
runtime of bounded tables, FITS files, matrices, chemical formulae, ledgers and resource plans around them.
This project models the parts whose correctness spans many functions and proves what they promise.
`dafny verify dfyconfig.toml` checks everything.

| area | modules |
|---|---|
| Language | `Ast`, `Values`, `Interpreter` (what a run is), `EvaluationObject` (the evaluator as an object, in `Evaluation.dfy`), `ElementwiseRuntime`, `LanguageLaws` (calls and operators by their values) |
| Native code | `Native` (the target and its runtime), `NativeSteps`, `Codegen` (the translation), `Compilation` (what has code), `Agreement` (the simulation), `Parity` (the engine theorems), `PrintPlacement` |
| Static passes | `Scans`, `RunInvariants` (what every run keeps), `StaticScans`, `FinalState` |
| Canonical form | `CanonicalJson`, `CanonicalReading`, `CanonicalMeaning`, `CanonicalProgram`, `CanonicalSpelling`, `CanonicalRuns`, `CanonicalTexts` (the bytes of each construct), `FaithfulNumerals` |
| Tables | `Delimited`, `DelimitedRoundTrip`, `TabText`, `Batches` |
| FITS | `Fits`, `FitsLayout`, `FitsCells`, `FitsRows`, `FitsFilter`, `FitsExport`, `FitsStatistics`, `FitsLaws` (keywords, cells and filters by what they mean) |
| Numbers | `Matrix`, `Cholesky`, `Covariance` |
| Chemistry | `Formula` (trees and their reader), `FormulaParsers` (the two parsers as they run) |
| Protocols | `Ledger`, `LedgerProtocol` |
| Planning | `Planner`, `PlannerLaws` (the numbers in closed form), `Admission`, `ResourceGuard` |
| Shared | `Prelude`, `Arithmetic` |

Code that the repository writes step by step keeps its form. The evaluator, the batch reader and writer, the
FITS row source, the formula parser, the ledger project, the output buffer and the resource guard are classes
whose methods are proved against functions of their old state; parsers, scans and matrix algorithms are
methods with loops, proved against definitions that do not mention them. Pure code is functions.

## Reading the engine theorems

A `Machine` holds what both engines share and what is not written out here: quantity arithmetic, formatting,
the library functions and names that may be written. `Run` is a whole interpreted run, `RunAndCapture` a run
with the final-state capture of `COMPLETELY_MAD`, `RunNative` a run of the generated program. An emitted loop
round that does not count itself would be *stuck*; the theorems say no generated program ever is. Output and
state of failed runs are not compared, because the engines stop at different places on purpose.

`ProgramSupported` is what the parser and `validate_execution` leave: loop control inside loops, `return`
inside functions, seals and functions at the top, distinct function names that are not library names, no
imports, no inline Rust, no data calls, no `GO_PRIVATE`. `Compiles` is what the generator checks besides, as a scan
of the text.

## What the proofs brought to light

- A `print` in expression position is interpreted and prints, but is emitted as a call of an unknown function:
  the engines agree exactly when no such print is reached (`Parity.StrayPrintSplitsEngines`).
- Arity is checked for every call at compile time, but only for calls that are reached when interpreting
  (`Parity.DeadCodeIsRefused`). Which supported programs have code is a matter of their text alone
  (`Compilation.CompilesExactly`).
- `printf` is written as `print` in the canonical form, so programs that differ in it share canonical bytes and
  can run differently (`CanonicalRuns.PrintfIsForgotten`); that spelling is all that can make them differ
  (`CanonicalRuns.SameBytesSameRun`).
- A record without cells reads back as one empty cell (`DelimitedRoundTrip.EmptyRowBecomesCell`).
- The TSV writer of generated outputs turns tabs and line ends into spaces and does not quote, so a cell with one
  of these or with a quotation mark is not read back as it was by the repository's own TSV parser; rows read back
  exactly when no cell holds any (`TabText.TabTextReadsBack`). FITS exports refuse tabs and line ends, and read back
  exactly when no cell holds a quotation mark (`FitsExport.TsvExportReadsBack`).
- Asking a closed reader for another batch makes it closed and failed, a state that otherwise never arises and
  whose evidence the verification refuses (`Batches.AskAgain`, `Batches.Replay`).
- A custody ledger stops for good in two ways (`LedgerProtocol.GrowsExactly`): a failure or crash between the log
  and its checkpoint leaves every audit failing (`LedgerProtocol.FailureStops`), and a crash at any point inside the
  lock leaves the lock taken (`LedgerProtocol.CrashStops`).
- Narrower weights can ask for more memory and lose an admission: in full training, where 16 bits need a master
  copy that 32 bits do not, and only there (`Admission.NarrowingKeepsAdmissions`, `Admission.AdmissionLost`).

## Model

| member | source | states |
|---|---|---|
| Interpreter.ExecBlock | src/evaluator.rs:251-445 | Running statements terminates on every program and state, by call depth left, program text and loop budget left together; it leaves the depth as it was and never counts more loop bodies than the budget, in any reachable state |
| Interpreter.EvalExpr | src/evaluator.rs:468-604 | The same for expressions, user-function calls included |
| Interpreter.RunFunction | src/evaluator.rs:1608-1664 | A call gives its caller back the environment and the depth it had, whatever the body does |
| LanguageLaws.BindsInOrder | src/evaluator.rs:1634 | A call binds exactly the parameters, each to the argument in its own place, and of two parameters with one name the later |
| LanguageLaws.CallStartsBound | src/evaluator.rs:1630-1664 | The body of an interpreted call runs in whatever environment is bound so, and its returned value is the result |
| LanguageLaws.EmittedCallStartsBound | src/compiler.rs:425-443 | So does the body of an emitted call, in maps of its own |
| LanguageLaws.BinaryMeans | src/evaluator.rs:564-581 | Operands are evaluated left first, and the left value stands on the left of the operator |
| LanguageLaws.ArrayBinaryMeans | src/elementwise_runtime.rs:113-138 | Of two arrays the operator takes the items at the same place, the left one on the left |
| LanguageLaws.ComparisonMeans | src/evaluator.rs:2330-2360 | The six comparisons of quantities of one dimension are those of their numbers |
| LanguageLaws.IndexMeans | src/evaluator.rs:487-502 | Index k yields item k |
| LanguageLaws.SliceMeans | src/evaluator.rs:503-525 | A slice holds the items from its start up to but without its stop, in order |
| LanguageLaws.LogicMeans | src/evaluator.rs:587-604 | `and` and `or`, with the right operand evaluated only when the left leaves the answer open |
| LanguageLaws.PrintedForm | src/evaluator.rs:24-41 | A text prints as it is, Booleans as their words, an array in brackets with its items in order, comma and blank between |
| LanguageLaws.PrintedLine | src/evaluator.rs:853-869 | One printed value stands alone, several in order with blanks between |
| LanguageLaws.SnapshotInOrder | src/evaluator.rs:1944-1962 | Interpolated text is its literal pieces and the texts of its placeholders, one after another |
| LanguageLaws.FirstBudgetCounts | src/resources.rs:60-84 | The loop budget of a run is the declared one |
| LanguageLaws.CapturedBindings | src/mad.rs:44-64 | Captured bindings are those of the recorded names and no other, each under its own key |
| LanguageLaws.SampleRun | src/evaluator.rs:219-260 | One program worked through: with sub(a, b) returning a - b, x = sub(5, 2) leaves x at 3 |
| EvaluationObject.Evaluation.EvalExpr | src/evaluator.rs:468-604 | The evaluator object, updating its fields step by step, does what the functional interpreter says, on success and on refusal |
| EvaluationObject.Evaluation.EvalCall | src/evaluator.rs:605-623 | A call on the object: user functions first, arity before any argument |
| EvaluationObject.Evaluation.EvalUserFunction | src/evaluator.rs:1608-1664 | The environment, return slot and depth fields are swapped and restored around the body, as the functional interpreter says |
| EvaluationObject.Evaluation.EvalStmtFlow | src/evaluator.rs:261-445 | One statement on the object equals the functional interpreter's step |
| EvaluationObject.Evaluation.EvalFor | src/evaluator.rs:325-357 | The range loop of the object equals the functional interpreter's loop, `continue` and `return` included |
| EvaluationObject.Evaluation.LoopTick | src/evaluator.rs:446-458 | One more loop body is counted exactly when the shared budget allows it |
| EvaluationObject.Evaluation.EvalProgram | src/evaluator.rs:219-250 | All top-level statements, on the object |
| EvaluationObject.Evaluate | src/evaluator.rs:219-250 | A fresh object that registers and evaluates a program ends in the state and with the verdict of the functional interpreter |
| EvaluationObject.RegisteredOnce | src/evaluator.rs:228-245 | Registration succeeds exactly when no function name is declared twice |
| Codegen.GenerateStatements | src/compiler.rs:801-1009 | The loop that appends emitted statements to one body emits the translation of the list, or refuses where the translation does |
| Values.SnapshotAgrees | src/evaluator.rs:1944-1962 | Interpolated text depends on the name resolver only through its answers, so two lookups that agree give one text |
| RunInvariants.ExprKeeps | src/evaluator.rs:468-604 | Every value in every reachable state is valid: arrays flat, homogeneous, at most 100,000 items; output, seals and evidence only grow; attempted calls stay among the names in the text |
| RunInvariants.StmtKeeps | src/evaluator.rs:261-445 | The same across statements, with recorded names bound and inside what the statement assigns |
| RunInvariants.FunctionKeeps | src/evaluator.rs:1608-1664 | The same across user-function calls |
| ElementwiseRuntime.PreflightLength | src/elementwise_runtime.rs:63-85 | A length is found exactly when all array operands share one |
| ElementwiseRuntime.PreflightTypes | src/elementwise_runtime.rs:86-112 | Accepts exactly numeric operands with one unit for each array |
| ElementwiseRuntime.Map | src/elementwise_runtime.rs:54-139 | The loop over lanes computes the element-wise mapping |
| ElementwiseRuntime.LanesStopShort | src/elementwise_runtime.rs:113-138 | One refused lane refuses the whole mapping |
| Values.ElementwiseMeaning | src/elementwise_runtime.rs:54-139 | Given the preflight, mapping succeeds exactly when every lane does and all lane results share a unit with the first; lane k is then the scalar function of the k-th items |
| Values.ElementwiseValid | src/elementwise_runtime.rs:54-139 | Whatever the operands and the scalar function, a successful mapping is a valid array |
| Agreement.ComparisonsAgree | src/compiler.rs:534-554 | The emitted comparison and the interpreter's agree on all valid values, although they treat arrays differently |
| Agreement.ElementwiseAgrees | src/elementwise_runtime.rs:54-139 | Two scalar functions that agree on quantities give equal element-wise results |
| Agreement.AgreeExpr | src/compiler.rs:1011-1308 | From linked states, an emitted expression succeeds exactly when the interpreter does, with the same value and state; it is never stuck |
| Agreement.AgreeFunction | src/compiler.rs:425-443 | Depth passed as a parameter and fresh maps do what the interpreter's depth field and saved environment do |
| Agreement.AgreeStmt | src/compiler.rs:801-1009 | Every emitted statement agrees with the interpreter, flow included |
| Agreement.AgreeRange | src/compiler.rs:875-906 | Moving the loop index on before the body instead of after it changes nothing, `continue`, `break` and early return included |
| Agreement.AgreeWhile | src/compiler.rs:925-937 | `while` with its tick inside the loop agrees with the interpreter's |
| Agreement.AgreeSwitch | src/compiler.rs:962-989 | The chain of arms guarded by `switch_matched` agrees with first-match selection |
| Parity.TopIsBlock | src/evaluator.rs:219-260 | Running top-level statements one by one is running them as one block |
| Parity.MachinesExist | src/evaluator.rs:219-260 | There is a machine that meets what the engine theorems ask of one |
| Parity.RecordedNamesBound | src/mad.rs:44-64 | In every run the recorded names are bound at the top and inside the assignment scan, loop bodies keep to the budget, and every binding is a valid value |
| Parity.ArraysStayFlat | src/evaluator.rs:2417-2433 | At the end of every run, no element of a bound array is an array, and all share the first one's type |
| Compilation.CompilesExactly | src/compiler.rs:801-1308 | For every program: code is generated exactly when a scan of its text, function bodies and dead branches included, finds allowed argument counts for the calls checked at compile time, known units and constants, known operators, and no else without an arm |
| Parity.EnginesAgree | src/compiler.rs:801-1304 | For every supported program whose text passes that scan: there is code, and it succeeds exactly when the interpreter and its final-state capture do without a print in expression position, with the same variables, output, seals, loop count, names and world; otherwise it fails, and it is never stuck |
| Parity.EnginesAgreeInPlace | src/compiler.rs:801-1304 | For such programs whose prints are statements: success if and only if success, failure if and only if failure, equal final states |
| Parity.NameLimitsAgree | src/compiler.rs:828-837 | The emitted early refusal at 257 names happens exactly when the interpreter's end-of-run check refuses an otherwise successful run |
| Parity.StrayPrintSplitsEngines | src/compiler.rs:1092-1144 | Why prints must be statements: a print inside an assignment runs when interpreted and fails when compiled |
| Parity.DeadCodeIsRefused | src/evaluator.rs:605-623 | Every supported program has code if and only if its text passes the scan; and the scan matters: one supported program with a wrong argument count in dead code runs when interpreted and has no code |
| PrintPlacement.NoStrayPrints | src/compiler.rs:845-862 | A program whose prints are statements in the text never prints elsewhere in any run |
| StaticScans.AnyStmtsExact | src/compiler.rs:120-184 | The recursive scan answers yes exactly when a call name in the text is a hit |
| StaticScans.DataScanCoversRuns | src/compiler.rs:120-184 | If the scan finds no data function, no run attempts one |
| StaticScans.ExprEmitsNoData | src/compiler.rs:1092-1144 | An expression is emitted with a data call exactly when the scan finds one in it |
| StaticScans.DataScanCoversCode | src/compiler.rs:1092-1144 | If the scan finds none, the whole emitted program has no data call |
| StaticScans.VisitStmtsExact | src/confidential.rs:73-178 | The visitor accepts exactly when both callbacks accept every call name and every nested statement |
| StaticScans.ConfidentialityCoversRuns | src/confidential.rs:179-234 | A validated program without GO_PRIVATE attempts no confidential function in any run; with it, it attempts no data function but confidential ones, seals nothing and records nothing |
| FinalState.Assignments | src/mad.rs:149-180 | The recursive insertion into one set collects exactly the names assigned outside functions |
| FinalState.TopAssignmentsRecorded | src/evaluator.rs:281-289 | After a successful recorded run every top-level assignment is recorded |
| FinalState.EvidenceIsInScope | src/mad.rs:292-302 | The names recorded by any run pass the scope check of verification, complete after success and partial after failure |
| FinalState.IndexAt | src/evaluator.rs:325-357 | The k-th index of a range loop is start + k * step and short of stop |
| FinalState.IndicesReachStop | src/evaluator.rs:325-357 | One index more would pass stop, so none is missing |
| FinalState.RangeIsItsIndices | src/evaluator.rs:325-357 | A range loop is the loop over its list of indices, whatever its body does to the variable |
| FinalState.IndicesAreExact | src/evaluator.rs:2292-2305 | Every index bound lies within the exactly representable integers |
| CanonicalJson.WriteAsciiJsonString | src/hashing.rs:95-121 | The loop over characters appends the escaped text and nothing else |
| CanonicalJson.WriteCanonicalJson | src/hashing.rs:61-93 | The recursive writer appends the canonical text of a document, keys sorted, to its buffer |
| CanonicalReading.PairRoundTrip | src/hashing.rs:108-118 | A character above U+FFFF is written as a surrogate pair that reads back as that character |
| CanonicalReading.CanonicalRoundTrip | src/hashing.rs:42-121 | Canonical bytes followed by anything a value may be followed by read back as the document with sorted keys, and the rest is untouched |
| CanonicalMeaning.SameBytesSameMeaning | src/hashing.rs:31-93 | Two documents share canonical bytes exactly when they mean the same, key order apart |
| CanonicalMeaning.CanonicalIsAscii | src/hashing.rs:95-121 | Canonical text is printable ASCII |
| CanonicalProgram.CanonicalBytesExact | src/ast.rs:113-266 | Two programs share canonical bytes exactly when they are equal up to constant alias, print against printf and inline-block index, for every faithful printing of doubles |
| FaithfulNumerals.FaithfulNumeralsExist | src/hashing.rs:61-66 | There is a printing of doubles and whole numbers that is faithful: numbers by the grammar of section 6 of RFC 8259, different texts for different numbers |
| CanonicalRuns.SameBytesSameRun | src/ast.rs:113-266 | Two programs with equal canonical bytes that spell their print calls alike, print or printf, have identical interpreter runs |
| CanonicalRuns.SameBytesWithoutPrintf | src/ast.rs:113-266 | So have two programs with equal canonical bytes in which no call is named printf |
| CanonicalRuns.PrintfIsForgotten | src/evaluator.rs:526-553 | Why the spelling matters: two programs with one canonical form, one of which refuses and one of which prints |
| CanonicalTexts.ExprBytes | src/ast.rs:113-166 | The bytes of every expression are the list of its tag and its own parts, in the order of the source |
| CanonicalTexts.StmtBytes | src/ast.rs:168-253 | The same for every statement |
| CanonicalTexts.ProgramBytes | src/ast.rs:255-266 | A program is its statements in order |
| CanonicalTexts.SampleBytes | src/ast.rs:113-266 | One program with all-different parts, byte list by byte list: a range loop with variable, start, stop, step and a difference in its body |
| CanonicalTexts.ShortEscapes | src/hashing.rs:97-107 | The seven short escapes |
| CanonicalTexts.CodeEscape | src/hashing.rs:108-118 | A character that does not print is a code of four lower-case hexadecimal digits |
| Delimited.ParseEcsv | src/delimited.rs:102-189 | The cursor loop accepts, refuses and returns rows exactly as the recursive reading of the bytes |
| Delimited.ReadField | src/delimited.rs:115-152 | One field and the place it ends, quoted or plain |
| Delimited.RecordBytes | src/batches.rs:274-296 | The byte loop writes the record: delimiters between cells, quotes where needed and doubled inside |
| DelimitedRoundTrip.ParsedIsStorable | src/delimited.rs:102-189 | Whatever the input, an accepted table is within every limit and free of NUL and empty rows |
| DelimitedRoundTrip.TableRoundTrip | src/delimited.rs:102-189 | Writing and parsing returns the same rows if and only if they are nonempty, free of NUL and within the column, cell and row limits |
| DelimitedRoundTrip.EndingsDoNotMatter | src/delimited.rs:153-188 | With each line ended by LF or CR LF, and the last one by nothing unless it is one empty cell, a text reads back as its rows if they are storable and is refused otherwise |
| DelimitedRoundTrip.LastFeedIsOptional | src/delimited.rs:153-188 | A written table without its last line feed reads back as well |
| DelimitedRoundTrip.ReturnFeedsRead | src/delimited.rs:172-182 | So does a table whose lines all end in CR LF |
| DelimitedRoundTrip.BareReturnIsRefused | src/delimited.rs:172-180 | After whole lines and any cells, a CR that no LF follows is refused |
| DelimitedRoundTrip.MisquotedIsRefused | src/delimited.rs:115-146 | An unclosed quoted field, text behind a closing quotation mark and a quotation mark inside an unquoted field are refused |
| DelimitedRoundTrip.OversizeIsRefused | src/delimited.rs:154-186 | Rows beyond a limit, or with a NUL, are refused, never changed |
| DelimitedRoundTrip.EmptyRowBecomesCell | src/batches.rs:270-308 | A row without cells is what a record cannot carry: it reads back as one empty cell |
| DelimitedRoundTrip.ParseWriteParse | src/delimited.rs:102-189 | Parsing, writing with either delimiter and parsing again changes nothing |
| TabText.CsvLines | src/output.rs:76-111 | The CSV writer of output artifacts writes the records of the batch writer |
| TabText.TabTextReadsBack | src/output.rs:76-93 | Whatever the rows, a TSV text reads back as them if and only if they are storable and no cell holds a quotation mark, which this writer never escapes, or a tab or line end, which it turns into a space |
| TabText.QuotedWordIsUnquoted | src/output.rs:85-88 | A concrete cell that such a TSV silently changes |
| Batches.Reader.Next | src/batches.rs:166-247 | A batch is the next selected rows, within the row and byte limits; it stops short only before a carried row that would not fit; an empty batch means the end; errors deliver nothing. Refused when closed or failed, or when before the batch is full the stream breaks off or comes to a record of the wrong width or over the byte limit; with an allocator that gives what it is asked for, only then |
| Batches.Reader.Gather | src/batches.rs:180-232 | The loop of a batch, with the row carried over and the same exact refusal |
| Batches.Reader.BatchNext | src/batches.rs:567-577 | The same exact refusal, which makes the reader fail for good; asking a closed reader is the one way to a reader both closed and failed |
| Batches.Reader.BatchClose | src/batches.rs:578-588 | A reader closes exactly when it has seen the end, has not failed and is open |
| Batches.TakeColumns | src/batches.rs:201-204 | Selected cell j is the cell of the j-th column asked for |
| Batches.Reader.NothingLost | src/batches.rs:166-247 | At the end there is one delivered row for every record, and cell j of row k is the cell of the j-th column asked for in record k |
| Batches.Reader.BatchCells | src/batches.rs:166-247 | The flat cells of a batch are those cells, row by row |
| Batches.Reader.InOrder | src/batches.rs:166-247 | Read off the invariant every method keeps, refusals included: what was delivered is the first so many selected records, in order, cell by cell |
| Batches.ReadToEnd | src/batches.rs:166-247 | A new reader asked again and again ends exactly when the stream is undamaged and every record has the width of the header and fits a batch of its own, however many rows a batch may hold; without an exact allocator it ends only then; having ended it has delivered everything |
| Batches.Replay | src/batches.rs:902-925 | Whatever calls are made in whatever order: the rows delivered are the first so many in order and none is taken back, a failed reader delivers nothing more, and the verification accepts the evidence exactly when no batch was asked of a closed reader |
| Batches.AskAgain | src/batches.rs:567-588 | A reader closed and failed at once, whose evidence is refused: an empty stream read to its end, closed and asked again |
| Batches.Writer.WriteRecord | src/batches.rs:270-308 | The whole record is appended or nothing, exactly within the record and file limits and without NUL |
| Batches.Writer.StreamWrite | src/batches.rs:647-696 | Accepted exactly when the writer is open and unfailed and the cells are complete rows of plain values within the limits, none with a NUL or too long a record, whose records all fit in the file; then every row is written. A refusal fails the writer for good and keeps exactly the rows before the first that cannot be written |
| Batches.ChunkCells | src/batches.rs:675-690 | Row k, cell j of what is written is cell k * columns + j of what was offered |
| Batches.Writer.ClosedFileReadsBack | src/batches.rs:270-308 | A closed file parses back as its header and all rows written, exactly when they are storable |
| Batches.Finish | src/batches.rs:711-720 | Passes exactly when every reader has reached its end and closed and every writer is closed, none failed; then every reader has delivered its whole snapshot |
| Matrix.CompensatedSum | src/matrix.rs:154-172 | Over exact reals the correction stays zero and the result is the sum |
| Matrix.Transpose | src/matrix.rs:174-187 | Refused exactly where array and shape disagree, are empty or exceed the entry limit; otherwise entry (i, j) of the result is entry (j, i) of the input |
| Matrix.TransposeTwice | src/matrix.rs:174-187 | Transposing twice gives the matrix back |
| Matrix.Multiply | src/matrix.rs:188-225 | Refused exactly where inner dimensions differ, a shape does not fit its array, or the entry or work limit is exceeded; otherwise every entry is the inner product of row and column |
| Matrix.ProductTransposed | src/matrix.rs:174-225 | The transpose of a product is the product of the transposes in the other order |
| Cholesky.Factor | src/matrix.rs:345-402 | A result is lower triangular with positive diagonal and reproduces every entry of the lower triangle, with each squared pivot above the roundoff bound; a refusal means the input is not symmetric enough or no such factor exists |
| Cholesky.FillEntry | src/matrix.rs:371-395 | One entry filled in place, everything before it left alone |
| Cholesky.FactorIsUnique | src/matrix.rs:345-402 | A matrix has at most one factor |
| Covariance.CovarianceMatrix | src/matrix.rs:267-334 | Every entry is the textbook covariance of its two variables, despite anchoring, scaling and centring; refused exactly with too few observations |
| Covariance.AnchoringIsCentring | src/matrix.rs:281-313 | A column anchored at any value, scaled and centred is its deviations over the scale |
| Covariance.BalancedProduct | src/matrix.rs:259-266 | Multiplying smallest by largest magnitude first gives the product of all three |
| Formula.PrintedReads | src/chemistry.rs:440-517 | Every legal formula tree within the length limit reads back from its printed text, with the mass it denotes |
| Formula.MassIsDenoted | src/chemistry.rs:388-409 | A text has a mass exactly when it reads as a tree, and the mass is the tree's; the tree is legal |
| Formula.CalciumHydroxideMass | src/chemistry.rs:388-517 | One formula worked through: Ca(OH)2 weighs one calcium and twice an oxygen and a hydrogen |
| FormulaParsers.FormulaParser.Sequence | src/chemistry.rs:441-493 | The parser with cursor and depth fields answers as the reader of trees and puts the depth back |
| FormulaParsers.MolarMass | src/chemistry.rs:388-409 | The interpreter's parser gives every text the denoted mass or a refusal |
| FormulaParsers.FormulaSequence | src/compiled_chemistry_runtime.rs:193-254 | The parser with a cursor argument and a depth parameter answers as the same reader |
| FormulaParsers.FormulaMassCompiled | src/compiled_chemistry_runtime.rs:180-192 | The compiled parser gives every text the same mass or refusal |
| Ledger.AuditLog | src/ledger.rs:128-204 | The one-pass audit verifies exactly the logs that are a valid chain with a current head, and then reports its events and head |
| Ledger.ChainGrows | src/ledger.rs:222-249 | An event extends a chain exactly when its number, previous hash and own hash link to it |
| Ledger.Project.Append | src/ledger.rs:207-245 | Succeeds exactly on a verified ledger with a free lock; then there is exactly one more event, with the given timestamp, type, subject and payload, the next number and the link to the last, and the ledger is verified; otherwise nothing changes |
| Ledger.Project.Audit | src/ledger.rs:106-205 | Auditing changes nothing and verifies exactly a held history; an absent log with no head passes |
| Ledger.HeadHashFixesHistory | src/ledger.rs:128-204 | With an injective hash, two verified ledgers with the same nonempty head hash hold the same history, line for line |
| LedgerProtocol.StepKeeps | src/ledger.rs:207-245 | Every step of every appender, failures and crashes included, leaves a valid chain with a current or one-behind checkpoint |
| LedgerProtocol.RunKeeps | src/ledger.rs:207-262 | The same over whole interleaved runs, and the history only ever grows |
| LedgerProtocol.NeverTwoInside | src/ledger.rs:285-308 | In no state of any interleaved run, failures and crashes included, are two appenders inside the lock |
| LedgerProtocol.LagFailsAudit | src/ledger.rs:178-204 | While the checkpoint lags no audit passes |
| LedgerProtocol.FailureFreezes | src/ledger.rs:207-262 | A failure or crash between writing the log and the checkpoint freezes the ledger |
| LedgerProtocol.FrozenForever | src/ledger.rs:207-262 | In a frozen ledger no run ever changes the log or the checkpoint again |
| LedgerProtocol.CurrentPasses | src/ledger.rs:106-205 | An audit passes exactly while the checkpoint is current |
| LedgerProtocol.GrowsExactly | src/ledger.rs:207-308 | In every state of every run: some continuation writes to the log if and only if an appender that is alive holds the lock or finds it free, and an audit passes or that appender has written the event the checkpoint lacks |
| LedgerProtocol.UnlockedGrowsExactly | src/ledger.rs:207-245 | With the lock free and an appender outside, that is if and only if the checkpoint is current |
| LedgerProtocol.DeadHolderStops | src/ledger.rs:285-308 | Under a lock whose holder died every step keeps lock, log and checkpoint |
| LedgerProtocol.FailureStops | src/ledger.rs:207-262 | A run whose checkpoint write fails: the lock is free, every audit fails, and the log can never grow |
| LedgerProtocol.CrashStops | src/ledger.rs:285-308 | A run that crashes right after locking: audits pass, and the log can never grow |
| Fits.ParseHeader | src/fits.rs:1256-1333 | The block loop ends a header where its END card is, within the file and the header budget |
| Fits.ParseBinaryColumns | src/fits.rs:973-1037 | The column loop accumulates offsets and refuses as the recursive layout does, keywords that are not the numbers they must be included |
| Fits.ParseHdusBounded | src/fits.rs:825-947 | The loop over units accepts and returns exactly the units of the recursive reading |
| FitsLayout.FileIsTiled | src/fits.rs:825-947 | An accepted file is tiled by its units: every byte has one owner, each unit starts and ends on a 2880-byte boundary, data sizes are those of section 4.4.1.2 of the FITS Standard 4.0 |
| FitsLaws.FileMeans | src/fits.rs:825-1037 | Every unit of an accepted file is what the keywords at its start say: BITPIX, NAXISn, PCOUNT, GCOUNT, and for binary tables row width and number from NAXIS1 and NAXIS2, column j from its own TFORM |
| FitsLaws.HeaderEndMeans | src/fits.rs:1256-1333 | A header ends with the first block that holds the END card |
| FitsLaws.KindMeans | src/fits.rs:949-971 | What SIMPLE and XTENSION make of a unit |
| FitsLaws.FormatMeans | src/fits.rs:1048-1097 | A count and a letter take that many elements of the letter's standard width, bits whole bytes (section 7.3.1) |
| FitsLaws.LetterAlone | src/fits.rs:1048-1097 | A letter alone is one element |
| FitsLaws.CommonFormats | src/fits.rs:1048-1097 | 1J takes four bytes, 1I two, 12X two |
| FitsLayout.ColumnsArePacked | src/fits.rs:973-1097 | Accepted columns follow each other without gap or overlap within the row |
| FitsLayout.CellIsInside | src/fits.rs:1182-1191 | Every table cell has an address without overflow, inside its own unit's data (section 7.3) |
| FitsLayout.CellsAreApart | src/fits.rs:1182-1191 | Different cells never share a byte |
| FitsLayout.EvenIndexesSpread | src/fits.rs:1238-1247 | Sampled row indexes are strictly increasing, inside the table, of the size asked for, and span first to last row |
| FitsCells.SignedInRange | src/fits.rs:1150-1156 | A big-endian signed integer of n bytes lies in its two's-complement range |
| FitsCells.SignedIsExact | src/fits.rs:1150-1156 | Different byte patterns of one width are different numbers |
| FitsLaws.BigEndian | src/fits.rs:1150-1156 | Two and four bytes as numbers, the leading byte first and signed |
| FitsLaws.IntegerCell | src/fits_selection.rs:238-251 | A cell of an unscaled integer column is null exactly for the null value, and else its exact number |
| FitsLaws.LogicalCell | src/fits.rs:1138-1181 | What each byte of a logical cell means |
| FitsLaws.ExportedText | src/fits_selection.rs:451-469 | The exported text of each kind of cell |
| FitsCells.IntegerTextReads | src/fits_selection.rs:451-459 | Exported decimal text reads back as the same integer, of any size |
| FitsCells.IdentifiersStayDistinct | src/fits_selection.rs:224-282 | Cells of an unscaled integer column have the same text exactly when they have the same bytes |
| FitsCells.TextIsTrimmed | src/fits_selection.rs:224-237 | Text is accepted exactly when ASCII without NUL, and loses only its trailing spaces |
| FitsCells.MarkerMeansNull | src/fits_selection.rs:451-469 | An accepted text is the null marker exactly when the cell is null |
| FitsRows.ParsedTableIsHeld | src/fits.rs:825-947 | The rows of a table of an accepted file lie inside the file |
| FitsRows.ParsedTableIsDescribed | src/fits.rs:973-1097 | The columns of a table of an accepted file keep the layout the row source asks for: inside the row, and one readable element fills its column |
| FitsRows.RowOfStretch | src/fits_batch.rs:118-128 | A slice of a chunk of rows is the plain reading of its row, for every row width |
| FitsLaws.RowAt | src/fits_batch.rs:118-128 | Byte b of row k is byte b behind k row widths from the start of the data |
| FitsRows.Source.Next | src/fits_batch.rs:109-143 | Each row once and in order, as its plain reading; nothing at the end; a refused row stays unread; the buffer keeps within 64 KiB or one row; the bytes fetched are the row area so far, each byte once |
| FitsRows.Open | src/fits_batch.rs:60-101 | On a table laid out so: succeeds exactly for a suitable table where each name picks one usable column, and picks those |
| FitsFilter.ValidateFilter | src/fits_selection.rs:156-200 | One walk with a running count accepts exactly the filters of at most 16 levels and 256 nodes without empty groups or unfit names: empty, over 1024 bytes or with a control character |
| FitsFilter.Evaluate | src/fits_selection.rs:399-449 | Refused exactly when any leaf fails on the row; otherwise selection is the Boolean meaning of the tree and the null flag tells of any null leaf, with no short circuit |
| FitsLaws.ComparisonMeans | src/fits_selection.rs:388-446 | Each of the six operators selects a row exactly when its cell stands to the bound so: integers and numbers by size, Booleans with false first, texts by the first byte that differs or the proper prefix; never a null cell |
| FitsLaws.FilterMeans | src/fits_selection.rs:262-446 | A filter, once bound, selects exactly the rows that the filter as written describes: groups by their parts, leaves by the one column of their name and its cell |
| FitsFilter.OrderNeverMatters | src/fits_selection.rs:399-419 | The order and repetition of a group's filters change neither selection, null counting nor refusal |
| FitsFilter.OneAnswerPerRow | src/fits_selection.rs:388-446 | Exactly one of `==`, `!=` and `is_null` selects a row, exactly one of `<`, `>=` and `is_null` |
| FitsFilter.OnlyBadCellsAreRefused | src/fits_selection.rs:292-446 | After binding, the refusal for a cell and a bound of different kinds is never reached |
| FitsFilter.QuotedIdentifierSelectsItself | src/fits_selection.rs:339-364 | The exported text of an integer cell, used as a bound, selects precisely the cells with the same bytes |
| FitsExport.WriteRow | src/fits_selection.rs:471-486 | The whole row or nothing, exactly within 64 MiB |
| FitsExport.ExportRow | src/fits_selection.rs:582-598 | One row updates file, counters and null counts as the plain definition says |
| FitsExport.ExportRows | src/fits_selection.rs:568-600 | The chunked scan succeeds exactly when the plain traversal does, and its file and counts are those of the plain traversal |
| FitsExport.ExportSubset | src/fits_selection.rs:510-600 | The same from output extension, names and filter on, with every check before the scan, plain binary tables only |
| FitsExport.KeptExactly | src/fits_selection.rs:575-600 | The kept rows are exactly the selected ones, each once, in table order |
| FitsExport.ExportedCells | src/fits_selection.rs:566-600 | First the names of the projected columns in order, then for each kept row the text of each column's cell |
| FitsExport.NothingIsDropped | src/fits_selection.rs:601-611 | Selected and rejected rows add up to the table |
| FitsExport.CsvExportReadsBack | src/fits_selection.rs:568-600 | A CSV export parses back as its header and kept rows, exactly within the parser's limits |
| FitsExport.TsvExportReadsBack | src/fits_selection.rs:471-478 | A TSV export does, exactly when also no name or text holds a quotation mark |
| FitsStatistics.KahanAdd | src/fits.rs:1484-1489 | Over exact reals a zero correction stays zero and the sum is exact |
| FitsStatistics.ColumnStatistics | src/fits.rs:516-579 | Chunked count, mean and extremes are those of one plain pass over the rows; refused exactly for a unit that is no plain binary table, an undecodable cell or no number |
| FitsStatistics.SelectedStatistics | src/fits.rs:581-687 | The same for the weighted mean of the rows in a half-open interval, each refusal stated |
| FitsLaws.HalfOpen | src/fits.rs:581-687 | A row is selected from the lower bound on and before the upper one |
| FitsLaws.ContributionIs | src/fits.rs:640-670 | A selected row contributes its weight, or one, and its value |
| FitsStatistics.SelectedMeanIsBetween | src/fits.rs:670-675 | The weighted mean lies between any bounds on the values it averages |
| Planner.SumIsExact | src/ai.rs:135-141 | The bounded sum is the sum, refused exactly out of range |
| Planner.ProductIsExact | src/ai.rs:142-148 | The bounded product is the product; with positive factors it is refused exactly out of range |
| Planner.CeilRatioIsLeast | src/ai.rs:149-155 | The result is the least whole number not below the ratio |
| Planner.RamBudgetOf | src/ai.rs:234-261 | The pass over memory limits computes the budget from the least limit and the least remainder, unknown if any use is unknown |
| Planner.MakePlan | src/ai.rs:262-475 | There is a plan exactly for a valid observation and request whose estimate stays in range; every reason that applies is recorded once and no other; the decision is within budget exactly when there is none, and a known refusal precedes missing information |
| PlannerLaws.ComponentsMean | src/ai.rs:272-290 | The eight demands as arithmetic in the fields of the request |
| PlannerLaws.ComponentsExist | src/ai.rs:272-290 | For a valid request they are refused exactly when the activations or the attention workspace are out of range |
| PlannerLaws.CheckpointMeans | src/ai.rs:321-350 | Two checkpoints of twelve bytes for each trainable parameter, or of weights, master copy and eight in full training, with a tenth and 4 KiB to spare |
| PlannerLaws.EstimateMeans | src/ai.rs:272-351 | Training, host, shared, checkpoint and disk demand in closed form, with headroom rounded up |
| PlannerLaws.RamReserveMeans | src/ai.rs:247-249 | The reserve of memory: a quarter up to 2 GiB, at least 256 MiB and what is asked for |
| PlannerLaws.DeviceReserveMeans | src/ai.rs:364-371 | The reserve of a device: a tenth, at least 128 MiB and what is asked for |
| PlannerLaws.DiskReserveMeans | src/ai.rs:376-380 | The reserve of the disk: a quarter up to 1 GiB, at least 64 MiB and what is asked for |
| PlannerLaws.ThreadsMean | src/ai.rs:381-388 | All usable threads but one, at least one, and at most what is asked for or eight |
| PlannerLaws.DecisionMeans | src/ai.rs:389-450 | Refused exactly when something is known to be short or the device is not there, else undecided when something needed is unknown |
| PlannerLaws.SampleEstimate | src/ai.rs:272-351 | One request with no two demands the same, number by number |
| Admission.AdmittedExactly | src/ai.rs:352-450 | A plan is admitted exactly when every demand is covered by what is known to be free, each positive demand with its reserve: memory, every memory limit, device and disk, with shared memory charged once |
| Admission.EstimateGrows | src/ai.rs:272-351 | A request that asks for no more, narrower weights included unless training is full, has an estimate, and no part of it is larger |
| Admission.AdmissionSurvives | src/ai.rs:262-475 | Admission survives any decrease of demands, reserves and margins, of the width of the weights too unless training is full, and any increase of what is free with totals fixed |
| Admission.NarrowingNeverEnlarges | src/ai.rs:272-351 | Narrower weights alone leave no part of an estimate larger if and only if training is not full |
| Admission.NarrowingKeepsAdmissions | src/ai.rs:262-475 | For a plan that some machine admits: with narrower weights alone every machine that admits it still does if and only if training is not full |
| Admission.NarrowerWeightsAskMore | src/ai.rs:272-280 | Why: full training at 16 instead of 32 bits asks for two more bytes a parameter |
| Admission.NarrowerIsRefused | src/ai.rs:352-450 | From any machine that admits a full training in 32 bits, a machine that admits it and refuses it in 16 |
| Admission.AdmissionLost | src/ai.rs:262-475 | One small machine and one small training that is admitted in 32 bits and refused in 16 |
| ResourceGuard.Guard.Reserve | src/ai.rs:571-580 | All of a reservation or none, exactly while open and within the limit; held bytes stay reserved minus released |
| ResourceGuard.Guard.Release | src/ai.rs:581-587 | Exactly what is held can be released, also after cancellation |
| ResourceGuard.Guard.Step | src/ai.rs:588-595 | A step counts exactly while open and below the maximum |
| ResourceGuard.Drive | src/ai.rs:544-605 | Over any calls the account holds, the peak keeps to the limit, and a cancelled guard reserves and counts nothing more |

## Left out

- Parity.EnginesAgree: does not cover programs with data calls, imports, inline Rust or GO_PRIVATE, which leave the generated core for foreign code or for a launcher, and compares no output or state of failed runs, where the engines evaluate and refuse in different orders.
- Parity.EnginesAgreeInPlace: does not cover the discipline of `input()` for carriage returns, whose reading of standard input is one shared step of the world here.
- Interpreter.EvalExpr: takes quantity arithmetic, comparison of quantities, formatting and library functions from one shared machine, because quantity.rs and text_runtime.rs are not part of this model.
- RunInvariants.ExprKeeps: assumes library functions return valid values for valid arguments; arrays built by the language itself are proved valid.
- FinalState.EvidenceIsInScope: does not model the 8 MiB limit on encoded final states, hashes and the evidence of warnings and constants.
- CanonicalReading.CanonicalRoundTrip: keeps number tokens as texts.
- Delimited.ParseEcsv: does not check cells for UTF-8; cells are byte strings.
- Batches.Reader.Next: reads decoded records, so raw record limits, snapshots and hashes are left out; a FITS table would supply records through FitsRows.
- Batches.Writer.WriteRecord: models the write to the operating system as one step that succeeds.
- CanonicalProgram.CanonicalBytesExact: leaves the shortest text of a double a parameter; that a faithful choice exists is proved, that the sources' choice is one is not.
- Matrix.Multiply: works over exact reals with shapes already read as integers; units and overflow are not modelled.
- Cholesky.Factor: works over exact reals with a square root as parameter; rounding, overflow and units are not modelled.
- Covariance.CovarianceMatrix: works over exact reals, so the branch for overflowing differences is never taken.
- Formula.MassIsDenoted: leaves the element table a parameter with positive weights; both tables in the sources hold the same 43 entries.
- Ledger.Project.Append: treats the hash as a function, injective where needed; paths, timestamps and the file hash in the checkpoint are left out.
- LedgerProtocol.StepKeeps: takes each whole write as one step; torn writes inside a step are left out.
- Fits.ParseHdusBounded: starts from decoded header cards and their END card; card syntax, names, units and the refusal of duplicate keywords are left out.
- FitsCells.MarkerMeansNull: assumes that the shortest text of a number is never the marker.
- FitsRows.Open: takes names, scaling and null values of the columns as given; their layout is proved for tables of accepted files.
- FitsFilter.ValidateFilter: takes bounds as finite numbers; filters as JSON text and their 65,536-byte limit are left out.
- FitsExport.ExportSubset: takes the extension of the output name as given; the metadata of the artifact and the table of predicate columns are left out.
- FitsStatistics.ColumnStatistics: works over exact reals; a scaling that itself yields NaN is read as null.
- Planner.MakePlan: takes whether the time stamp of an observation is one as given; the backend hint, the effective batch size and report digests are left out.
- ResourceGuard.Guard.Reserve: takes the elapsed time as an argument instead of a clock.
- The parser, modules and table joins: not part of this model; their results appear as preconditions or parameters.
- Statistics, random numbers, plots, unit tables, electrical and fluid functions: many easy members.
- Network acquisition, encryption, prompts, hardware probing and foreign calls: input and output.
- Receipt verification checklists, policy constants, file permissions and links: wide but shallow.
- Error messages: every refusal is one value.
