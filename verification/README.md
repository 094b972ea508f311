# docugen text engine in Dafny

docugen adds documentation to SQL, Python and R source files. This project
models the part of it that works on text alone:

- the **extractor** (`CodeExtractor`), which finds the documentable items of a
  SQL file (the whole file, one query) and of an R file (each
  `name <- function(` declaration with its brace-delimited body and the
  Roxygen block above it);
- the **parser** (`DocParser`, with the block scanners in `Blocks`), which
  reads an existing SQL markdown block, NumPy docstring or Roxygen block back
  into name, description, parameters, returns, examples and raw text;
- the **standards** (`SqlStandard`, `PythonStandard`, `RStandard`) and the
  **validator** (`DocValidator`), which list every issue a record has, in the
  order the checks run, and call it valid exactly when the list is empty;
- the **injector and per-file driver** (`DocOrchestrator`, with the splice
  algebra in `Splice`), which splices generated documentation into the file's
  lines bottom-up and reports processed, documented and skipped counts.

Files are `string`s split on `'\n'` (`Text.Split`, Python's `str.split('\n')`)
and joined back with `Text.Join`. The two regular expressions of the
extractor, and the one of the Roxygen parser, are written out as token
patterns over character classes (`Patterns`): `\s` is Python's full
whitespace set, as `str.isspace` gives it, while `\w` and `[\w.]` are
restricted to ASCII. `Text` gives Python's
`strip`, `startswith`, `in` and ASCII `lower`. The documentation generator,
Python's own parser (`ast`), the Python extractor and the file system enter
the model as function parameters: `generate: string -> Option<string>` (a
`None` result stands for any exception), `syntaxError: string -> Option<string>`,
`pythonItems` and `pythonDoc`, and the text written back is the `written`
field of `DocOrchestrator.Outcome`.

Where the written code and the design notes of the project disagree, the
model follows the code:
- existing documentation is never removed before injection;
- the result is not written atomically;
- already documented items are skipped, not re-validated;
- the SQL block is the first `-- #` line anywhere in the file plus the `--`
  lines after it, not a run at the top of the file;
- R documentation is inserted without re-indenting.

## Model

| member | source | states |
|---|---|---|
| FileTypes.LanguageOf | docugen/core/code_extractor.py:47-56 | a suffix names a language exactly when, lower-cased, it is `.sql`, `.py` or `.r`, and then it is that language's suffix |
| CodeExtractor.Extract | docugen/core/code_extractor.py:47-56 | dispatch on the lower-cased suffix; any other suffix fails with `Unsupported file type: <suffix>` |
| CodeExtractor.ExtractSql | docugen/core/code_extractor.py:126-162 | exactly one item: kind query, starting at line 1, ending at the last `'\n'`-separated line, its code the whole file, documented exactly when some stripped line starts with `-- #`; its name is `SqlItemName` of the lines and its existing documentation the joined `SqlBlock` (the first `-- #` line and the `--` lines after it, `Blocks.SqlBlockShape`) |
| CodeExtractor.SqlItemName | docugen/core/code_extractor.py:145-152 | the name is `SQL Query` when no line matches the CREATE pattern, otherwise the capture on the first line that does |
| CodeExtractor.FirstFound | docugen/core/code_extractor.py:146-152 | the first line at or after `i` on which the matcher succeeds; every line before it fails |
| Patterns.SearchLeftmost | docugen/core/code_extractor.py:148-149 | `re.search` reports the capture at the leftmost index where the CREATE pattern matches |
| Patterns.SearchNone | docugen/core/code_extractor.py:148-149 | the search fails exactly when the pattern matches at no index of the line |
| Patterns.SearchCreateWord | docugen/core/code_extractor.py:148 | a found CREATE name is one or more word characters |
| Patterns.CreateFunctionNamed | docugen/core/code_extractor.py:148-151 | a line `CREATE FUNCTION name…` yields `name` |
| Patterns.RDeclNamed | docugen/core/code_extractor.py:187-189 | a line `name <- function(…` is a declaration of `name` |
| Patterns.MatchRDecl | docugen/core/code_extractor.py:187 | a declared name starts with a letter or `_` and continues with word characters or `.` |
| Blocks.SqlBlockShape | docugen/core/code_extractor.py:129-141 | the SQL documentation block is the first `-- #` line plus the run of `--` lines right after it, ending at the first other line |
| Blocks.SqlBlockIffHeader | docugen/core/code_extractor.py:129-141 | the block is non-empty exactly when some stripped line starts with `-- #` |
| Blocks.DocRunStart | docugen/core/code_extractor.py:211-219 | the start of the maximal run of `#'` lines directly above the declaration; the line before it is not a `#'` line |
| CodeExtractor.ScanCharsSpec | docugen/core/code_extractor.py:198-206 | the character loop stops exactly when some `}` brings the net count (`{` minus `}` since the scan began) to zero after a `{` has been seen; otherwise it ends holding that net count and whether a `{` was seen |
| CodeExtractor.FindEndSpec | docugen/core/code_extractor.py:197-208 | the line loop returns line `e` exactly when line `e` is the first whose closing brace balances the count, and no earlier line left a begun body at depth zero (a `}{` line) |
| CodeExtractor.FunctionEndSpec | docugen/core/code_extractor.py:193-208 | counting braces from the start of the declaration line, the end search finds line `e` exactly when the braces first balance there, and finds nothing exactly when they never do |
| CodeExtractor.RItem | docugen/core/code_extractor.py:187-233 | the item starts at `i+1`, ends at the given end line, its code is exactly `lines[i:end]` joined, it is documented exactly when the line above starts with `#'`, and its existing documentation is the maximal `#'` run directly above, joined (`Blocks.DocRunStart`) |
| CodeExtractor.ScanRSpec | docugen/core/code_extractor.py:183-237 | every item found is a matched declaration spanning its lines; items come in file order without overlap, all below the start line |
| CodeExtractor.ScanRCovers | docugen/core/code_extractor.py:183-237 | every declaration line lies inside some reported item: only declarations nested in another body are skipped |
| CodeExtractor.ExtractR | docugen/core/code_extractor.py:178-239 | the R items are matched declarations, in order, not overlapping, each spanning its lines, ending where the end search stops (the declaration line when it finds none), documented exactly when the line above is Roxygen, with the Roxygen run above as existing documentation |
| CodeExtractor.ExtractedREnds | docugen/core/code_extractor.py:193-208 | each extracted R function ends on the line where its braces, counted from its declaration line, first balance, or on the declaration line alone when they never do |
| CodeExtractor.AsWrittenHangs | docugen/core/code_extractor.py:193-237 | in the loop as written, a declaration whose body never closes leaves `end_line = i` and the loop does not finish within any fuel |
| CodeExtractor.AsWrittenHangsOnBracelessDecl | docugen/core/code_extractor.py:187-237 | `f <- function(x) x` with no brace below it makes the loop as written run for ever |
| CodeExtractor.AsWrittenAgrees | docugen/core/code_extractor.py:183-237 | whenever the loop as written finishes, it returns what the corrected scan returns |
| CodeExtractor.AsWrittenFinishes | docugen/core/code_extractor.py:183-237 | when every declaration's body closes, the loop as written finishes within one iteration per line |
| DocParser.Parse | docugen/core/doc_parser.py:28-46 | `None` for a missing file or an unsupported suffix; `.sql` goes to the SQL parser, `.r` to the Roxygen parser and `.py` to the NumPy parser under the given header rule (`AsWritten` is the program); found exactly when the language's block marker occurs (SQL `-- #`, R `#'`, a Python docstring) |
| DocParser.ParseSql | docugen/core/doc_parser.py:65-83 | `None` exactly when no stripped line starts with `-- #`; otherwise the raw text is the header line and the following `--` lines joined by newlines |
| DocParser.NumpyRun | docugen/core/doc_parser.py:225-232 | lines that are not one of the recognised headers, such as `Raises`, join the open section one by one |
| DocParser.SqlSectionsAppend | docugen/core/doc_parser.py:98-126 | the section loop over two pieces of a block is the loop over the second started where the first ended |
| DocParser.SqlRoundTrip | docugen/core/doc_parser.py:95-130 | a block written with name header and four section markers reads back as the name and each section's text stripped; an empty last section stays unset |
| DocParser.ParseNumpy | docugen/core/doc_parser.py:179-186 | the record keeps the passed name and its raw text is the docstring between `"""` lines |
| DocParser.NumpyCanonical | docugen/core/doc_parser.py:188-238 | a docstring laid out as description, Parameters, Returns, Examples (each with its dashed underline) reads back as those parts, an empty section unset |
| DocParser.ParamsThenExamples | docugen/core/doc_parser.py:200-238 | as written, Parameters followed directly by Examples leaves the parameters unset; storing the open section on every header keeps them |
| DocParser.DescriptionThenReturns | docugen/core/doc_parser.py:200-238 | as written, a description followed directly by Returns is lost; storing on every header keeps it |
| DocParser.ParseR | docugen/core/doc_parser.py:257-290 | `None` exactly when no line is a `#'` line; otherwise the raw text is the first run of `#'` lines, named after the line that ends it |
| DocParser.RFunctionName | docugen/core/doc_parser.py:270-276 | a name is read only from the line right after the block, holding `<-` and `function`, and is made of word characters |
| Blocks.RoxygenBlockShape | docugen/core/doc_parser.py:263-276 | the Roxygen block is the run of `#'` lines starting at the first one, paired with the line that ends it |
| DocParser.RRoundTrip | docugen/core/doc_parser.py:257-339 | a file made of a Roxygen block (description, `@param` lines, `@return`, `@examples`, `@export`) and a `name <- function` line reads back as those parts under that name |
| DocParser.ReturnThenParam | docugen/core/doc_parser.py:302-339 | as written, `@return` before `@param` puts the returns text under parameters and loses the returns; storing the open returns first keeps both |
| SqlStandard.ValidateStructure | docugen/standards/sql_standard.py:46-63 | valid exactly when the block is non-empty and holds all five headers as case-insensitive substrings |
| SqlStandard.AppendKeepsValid | docugen/standards/sql_standard.py:58-61 | text placed before or after a passing block keeps it passing: only containment is checked |
| SqlStandard.NameHeaderImplied | docugen/standards/sql_standard.py:50-55 | the `-- #` requirement follows from `-- ## Description` |
| PythonStandard.ValidateStructure | docugen/standards/python_standard.py:50-69 | valid exactly when the docstring is non-empty, its stripped form opens with `"""` or `'''`, and it holds `Parameters`, `----------`, `Returns` and `-------` |
| PythonStandard.ShortUnderlineImplied | docugen/standards/python_standard.py:58-63 | the `-------` requirement follows from `----------` |
| PythonStandard.OpeningQuotesSuffice | docugen/standards/python_standard.py:53-69 | neither section order nor a closing quote is checked: opening quotes and the markers suffice |
| RStandard.AllLinesMarked | docugen/standards/r_standard.py:57-61 | every line is blank or, stripped, starts with `#'` |
| RStandard.ValidateStructure | docugen/standards/r_standard.py:42-63 | valid exactly when the block is non-empty, holds `#'`, `@param` and `@return`, and every non-blank line starts with `#'` |
| RStandard.MarkerRequirementRedundant | docugen/standards/r_standard.py:46-61 | once every non-blank line is marked, the `@param` line carries `#'`, so the separate `#'` requirement never decides |
| DocValidator.Validate | docugen/core/doc_validator.py:54-66 | no record gives exactly `No documentation found`; an unsupported suffix exactly `Unsupported file type: <suffix>`; `.sql`, `.py` and `.r` records get exactly the SQL, Python and R validator's result; valid exactly when the issue list is empty |
| DocValidator.DescriptionIssues | docugen/core/doc_validator.py:93-96 | a description that is not present is reported missing, one present but under 10 characters after stripping too short, and nothing else is reported |
| DocValidator.ValidateSql | docugen/core/doc_validator.py:82-112 | the structure message is listed exactly when the SQL structure check fails; each `Missing …` message exactly when its field is falsy; `Description is too short` exactly when the description is present but under 10 characters stripped; `Empty <field> section` exactly when that field is set but blank; no other message is listed; valid exactly when the list is empty, exactly when the structure passes, the name is set and every section is set and not blank, the description long enough |
| DocValidator.SqlEmptyFieldTwice | docugen/core/doc_validator.py:98-110 | a blank parameters section is reported as empty, and the empty text also as missing: one field, two issues |
| DocValidator.ValidatePython | docugen/core/doc_validator.py:128-172 | the structure message is listed exactly when the NumPy structure check fails; each `Missing …` message exactly when its field is falsy; `Description is too short` exactly when present but under 10 characters stripped; the `param_name : type` message exactly when the parameters are present but hold neither `:` nor `None`; `Empty Returns section` exactly when the returns are present but blank; each underline message exactly when its header is in the raw docstring without its dashes; no other message is listed; valid exactly when the structure passes, the name is set, the description long enough, the parameters typed and the returns not blank; examples are never required |
| DocValidator.UnderlinesRequired | docugen/core/doc_validator.py:166-170 | a docstring passing the structure check has both underlines, so the underline checks never decide |
| DocValidator.FirstUnmarked | docugen/core/doc_validator.py:220-226 | the first non-blank line not starting with `#'`, all lines before it marked; none exactly when every line is marked |
| DocValidator.ValidateR | docugen/core/doc_validator.py:188-228 | the structure message is listed exactly when the Roxygen2 structure check fails; each `Missing …` message exactly when its field is falsy; `Description is too short` exactly when present but under 10 characters stripped; `Parameters should use @param tag format` exactly when the parameters are present without `@param`; `Empty @return section` exactly when the return is present but blank; `Line n does not start with #' marker` exactly for `n` one more than the index of the first unmarked line, so at most once; no other message is listed; valid exactly when the structure passes, the name is set, the description long enough, the parameters tagged and the return not blank |
| Text.DecimalString | docugen/core/doc_validator.py:225 | `str(i)` in the `Line {i}` message: one or more decimal digits whose value is `i`, with no leading zero, so different lines give different messages |
| DocValidator.UnmarkedLineInjective | docugen/core/doc_validator.py:220-226 | the `Line i` messages of different line numbers differ, so the line check names exactly one line |
| DocValidator.SqlFormatValid | docugen/core/doc_validator.py:82-112 | a block in the SQL markdown format validates exactly when its name is non-empty, its description at least 10 characters and its other sections not blank |
| DocValidator.PythonFormatValid | docugen/core/doc_validator.py:128-172 | a docstring in the NumPy layout validates exactly when the name is non-empty, the description at least 10 characters, the parameters typed and the returns not blank |
| DocValidator.RFormatValid | docugen/core/doc_validator.py:188-228 | a Roxygen block in the template layout validates exactly when it has a parameter and a description of at least 10 characters |
| DocOrchestrator.BottomUp | docugen/core/doc_orchestrator.py:237-240 | the items reordered by start line, highest first: a permutation in descending order |
| DocOrchestrator.DocstringLines | docugen/core/doc_orchestrator.py:249-259 | the block is the documentation's lines between two `indent"""` lines, indent being the definition's leading width plus four spaces |
| DocOrchestrator.DocstringLinesSpec | docugen/core/doc_orchestrator.py:254-259 | each inner line is empty exactly when its documentation line is blank, and otherwise is the indent followed by that documentation line verbatim; no block line holds a newline |
| DocOrchestrator.PythonLoopSplices | docugen/core/doc_orchestrator.py:242-263 | visited bottom-up, the insertion loop splices each docstring, computed from the original file, at the original line number |
| DocOrchestrator.PythonLoopFails | docugen/core/doc_orchestrator.py:242-251 | the loop fails exactly when some item starts past the end of the file |
| DocOrchestrator.InjectPython | docugen/core/doc_orchestrator.py:231-265 | an item past the end of the file raises `IndexError`; no other input fails |
| DocOrchestrator.PythonInjected | docugen/core/doc_orchestrator.py:231-265 | the injected text is the original lines with each docstring spliced in at its item's original line |
| DocOrchestrator.PythonKeepsLines | docugen/core/doc_orchestrator.py:231-265 | every original line survives unchanged and in order, moved down by the lines inserted above it; the line count grows by the inserted lines |
| DocOrchestrator.PythonDocstringPlaced | docugen/core/doc_orchestrator.py:247-263 | each docstring lands whole in the output, after everything above its definition |
| DocOrchestrator.PythonDocstringBelowDefinition | docugen/core/doc_orchestrator.py:247-263 | the line right above each placed docstring is its item's definition line |
| DocOrchestrator.InjectR | docugen/core/doc_orchestrator.py:279-300 | the injected file's lines are the original lines with each item's documentation lines spliced in at `line_start - 1` |
| DocOrchestrator.RKeepsLines | docugen/core/doc_orchestrator.py:279-300 | every original line survives unchanged and in order, moved down by the lines inserted above it |
| DocOrchestrator.RDocAboveDeclaration | docugen/core/doc_orchestrator.py:288-298 | each item's documentation lands verbatim, not re-indented, directly above its declaration line |
| DocOrchestrator.InjectSql | docugen/core/doc_orchestrator.py:267-277 | no items leave the text unchanged; otherwise the first item's documentation, a blank line, then the original text, later items ignored |
| DocOrchestrator.SqlInjectReadsBack | docugen/core/doc_orchestrator.py:267-277 | a generated SQL block with a `-- #` header is what the parser reads back from the injected file |
| DocOrchestrator.InjectMultiple | docugen/core/doc_orchestrator.py:222-229 | dispatch on `.py`, `.sql` and `.r`; any other type fails with `Unsupported file type`; only the Python injector can fail otherwise |
| DocOrchestrator.CountDocumented | docugen/core/doc_orchestrator.py:87-101 | skipped plus to-document is the item count; all are skipped exactly when all are documented |
| DocOrchestrator.GenerateAll | docugen/core/doc_orchestrator.py:125-146 | each kept result is the generator's output for an item sent to it; failures are left out |
| DocOrchestrator.GenerateAllKeeps | docugen/core/doc_orchestrator.py:125-146 | no item the generator succeeds on is lost |
| DocOrchestrator.ProcessFile | docugen/core/doc_orchestrator.py:68-201 | success exactly when no error; a write only on success, outside a dry run, with at least one item documented; documented plus skipped never exceed processed; Python text is written only when it re-parses |
| DocOrchestrator.ProcessFileCounts | docugen/core/doc_orchestrator.py:75-192 | processed is the item count, skipped the documented items, documented at most the undocumented ones, unless the Python injector crashes |
| DocOrchestrator.AllDocumentedSkipped | docugen/core/doc_orchestrator.py:75-110 | with every item documented (or none at all) the file succeeds, all items skipped, nothing written |
| DocOrchestrator.DryRunWritesNothing | docugen/core/doc_orchestrator.py:112-119 | a dry run succeeds with the counts and writes nothing |
| DocOrchestrator.GeneratorSeesOnlyUndocumented | docugen/core/doc_orchestrator.py:90-133 | documented items never reach the generator |
| DocOrchestrator.AsWrittenNeverWrites | docugen/core/doc_orchestrator.py:129-155 | with the generator called as written, nothing is ever written and a file with undocumented items fails |
| DocOrchestrator.SqlDocumentedOnce | docugen/core/doc_orchestrator.py:121-192 | with a working generator, an undocumented SQL file gets the block on top, reads back as it, and a second run skips it |
| DocOrchestrator.RProcessWrites | docugen/core/doc_orchestrator.py:157-192 | the generated R documentation fits the file on distinct lines and the R injection of it is what gets written |
| DocOrchestrator.PythonProcessWrites | docugen/core/doc_orchestrator.py:157-192 | a Python item past the end crashes the run; otherwise the injected text is written exactly when Python's parser accepts it |
| Splice.SortDescStable | docugen/core/doc_orchestrator.py:237-240 | `sorted(..., reverse=True)` is stable: for every key, the elements carrying it come out in their original order |
| Splice.InsertAllKeeps | docugen/core/doc_orchestrator.py:262-263 | splicing blocks in descending order keeps every original element, shifted by the blocks inserted at or above it |

## Left out

- `_extract_python` and `_parse_python` depend on CPython's `ast` module: the
  Python items and the first Python docstring enter as parameters
  (`pythonItems`, `pythonDoc`), and the syntax check after injection is the
  `syntaxError` parameter.
- The documentation generator is a network client: it is the `generate`
  parameter, a function of the item's code that may fail. Its prompts and
  detail levels are not modelled.
- File reading, UTF-8 decoding, CRLF handling, the existence check and the
  final write are I/O: the content is a parameter, the written text a result.
- The command-line interface, configuration, logging, console output, file
  discovery and the file writer are not part of this model.
- Regular expressions are modelled only as far as the three patterns the
  extractor and parser use. `\s` is the full Unicode whitespace set, but
  `\w` (and so `[\w.]`) matches only ASCII letters, digits and `_`, and
  `IGNORECASE` folds only ASCII letters.
- CodeExtractor.ExtractR: uses the corrected scan (the end of a body that
  never closes is the declaration line itself); the scan as written does not
  finish on such input, growing its item list until memory runs out, and is
  modelled with fuel in `ScanRAsWritten`, which keeps no items of an
  unfinished run and does not model the `MemoryError` itself.
- FileTypes.UnsupportedMessage: lower-cases the suffix with ASCII folding
  only, while Python's `str.lower` also folds non-ASCII letters, so the
  `Unsupported file type: <suffix>` message differs for a suffix holding
  them; the dispatch itself does not, since no non-ASCII character lowers to
  a letter of `.sql`, `.py` or `.r`.
- Verbose progress messages of `process_file` are console output and are
  not modelled.

## Findings

| source | as written | input that shows it | evidently intended | confidence | as-written member | corrected member |
|---|---|---|---|---|---|---|
| docugen/core/code_extractor.py:193-237 | `end_line` starts at `i`; when no balancing `}` is found the loop sets `i = end_line` and revisits the same line, appending a new item for it on every pass, so the `items` list grows until CPython raises `MemoryError`, which `process_file`'s `except Exception` (docugen/core/doc_orchestrator.py:194-201) turns into a failed result | a file whose line is `f <- function(x) x` with no brace below it | every declaration moves the scan forward | high, not executed | CodeExtractor.AsWrittenHangsOnBracelessDecl | CodeExtractor.ScanRSpec |
| docugen/core/doc_parser.py:200-238 | the `Examples` header stores only an open returns section | a docstring `Parameters` / `----------` / `x : int` / `Examples` / `--------` / `>>> f(1)` gives parameters `None` | the open parameters are kept | high, not executed | DocParser.ParamsThenExamples | DocParser.ParamsThenExamples |
| docugen/core/doc_parser.py:200-238 | only the `Parameters` header stores the description | a docstring `Adds two numbers.` / `Returns` / `-------` / `int` gives description `None` | the description is kept | high, not executed | DocParser.DescriptionThenReturns | DocParser.DescriptionThenReturns |
| docugen/core/doc_parser.py:302-339 | `@param` does not store an open returns section, and the final store files it under the open section | `#' @return r` / `#' @param x` gives parameters `r` and returns `None` | returns `r` and parameters `@param x` | medium, not executed | DocParser.ReturnThenParam | DocParser.ReturnThenParam |
| docugen/core/doc_orchestrator.py:129-133 | `generate(file_path, item.code, detail_level)` calls a method that takes two arguments (docugen/core/doc_generator.py:273), so every call raises `TypeError`, caught as a per-item failure | any file with an undocumented item, outside a dry run | the generator is called with the item's code | high, not executed | DocOrchestrator.AsWrittenNeverWrites | DocOrchestrator.SqlDocumentedOnce |

The lemmas named twice state both halves: under the rule `AsWritten` they
exhibit the loss, under `EveryHeader` they prove the section is kept.
`DocParser.Parse` takes the rule as a parameter: `AsWritten` gives the
program as written, `EveryHeader` the corrected parser.
