# Document polishing pipeline: a verified model

The pipeline takes a .docx file and does four things in order:

1. It corrects the grammar of every body paragraph and of every paragraph directly in a cell of a top-level table.
2. It saves the result under a derived output path.
3. It applies a professional formatting pass to that file.
4. It uploads the file.

This project models the three pieces of the pipeline that carry their own logic:

- **The formatting pass** (`utils/docx_processor.py`), module `DocxProcessor`.
  - Body paragraphs whose style name starts with "Heading" get a bold first run in RGB(0,51,153). A run is added first when the paragraph has none.
  - Body paragraphs styled exactly "Title" are centred.
  - Paragraphs in table cells get neither rule; their runs only turn black.
  - Every top-level table is restyled "Table Grid", and every run of a paragraph directly in one of its cells turns black.
- **The correction pass** (`utils/grammar_corrector.py`), module `GrammarCorrector`.
  - It visits the body paragraphs, then every table row by row and cell by cell.
  - It skips blank paragraphs.
  - It hands every other text to the corrector, and rewrites the paragraph only when the corrector returns something different.
- **The driver** (`main.py`), module `Pipeline`.
  - The output path is `input.replace('.docx', '_professional.docx')`.
  - `main` returns early when the file does not exist. Otherwise it runs the stages in order.

The document tree is modelled in `DocxTree` in two views:

- **Values** (`RunV`, `ParagraphV`, `CellV`, `TableV`, `DocV`) describe the tree at one moment.
- **Objects** (`Paragraph`, `Cell`, `Table`, `Document`) are what the passes update in place.

Each class has a `Value()` function. Each in-place method states the document's new value as a function of its old value:

- `FormatDoc` for the formatting pass;
- `CorrectedDoc` for the correction pass.

What the passes promise is then proved as lemmas about those functions.

Every cell paragraph carries a ghost position (`Loc`), and every table carries its index. The document's `Valid()` ties these to where the objects are actually held. This is the tree property: no paragraph is shared between two places. It is what lets each loop iteration leave the rest of the document unchanged.

The corrector `correct_text` is a parameter `correct: string -> string`, and nothing is assumed about it. `os.path.exists(input_path)` is the parameter `fileExists`.

## Model

| member | source | states |
|---|---|---|
| DocxTree.Paragraph.AddRun | utils/docx_processor.py:15 | `paragraph.add_run()` appends one empty run with no formatting of its own, and the existing runs stay as they were |
| DocxTree.Paragraph.SetText | utils/grammar_corrector.py:15 | after `paragraph.text = s`, the paragraph's text (the concatenation of its runs) is `s` |
| DocxTree.ParagraphV.Text | utils/grammar_corrector.py:12-14 | `paragraph.text`: the texts of the paragraph's runs, concatenated in order |
| DocxTree.TextRuns | utils/grammar_corrector.py:15 | the runs python-docx's setter leaves for `paragraph.text = s`; they read back as `s` |
| DocxProcessor.IsHeading | utils/docx_processor.py:14 | `style.name.startswith('Heading')`: the style name is at least 7 characters long and its first 7 are "Heading" |
| DocxProcessor.EnhanceParagraph | utils/docx_processor.py:12-20 | for a "Heading*" style: run 0 is blue RGB(0,51,153) and bold, and keeps its text. With no runs there is exactly one new empty run; otherwise the run count and runs[1..] stay. For any other style the runs are unchanged. The alignment is Center exactly for "Title" and unchanged otherwise. The style name is kept |
| DocxProcessor.EnhanceParagraphStyle | utils/docx_processor.py:12-20 | the in-place update of one paragraph leaves the value `EnhanceParagraph` gives for its old value |
| DocxProcessor.BlackenRuns | utils/docx_processor.py:29-30 | the loop over one paragraph's runs turns every run black and changes nothing else of the run |
| DocxProcessor.BlackenCellRuns | utils/docx_processor.py:28-30 | the loop over a cell's paragraphs blackens each paragraph of that cell |
| DocxProcessor.BlackenRowRuns | utils/docx_processor.py:27-30 | the loop over a row's cells blackens every paragraph of every cell of the row |
| DocxProcessor.EnhanceTableStyle | utils/docx_processor.py:23-30 | the in-place update of one table leaves the value `EnhanceTable` gives for its old value |
| DocxProcessor.EnhanceTable | utils/docx_processor.py:23-30 | `enhance_table_style` on a table value: the style becomes "Table Grid" and every run of every cell paragraph gets colour RGB(0,0,0) |
| DocxProcessor.FormatDoc | utils/docx_processor.py:35-38 | `process_docx` between load and save: `EnhanceParagraph` on every body paragraph, then `EnhanceTable` on every table |
| DocxProcessor.EnhanceTableSpec | utils/docx_processor.py:23-30 | the table style is "Table Grid". The counts of rows, cells, paragraphs and runs are kept. Every run keeps its text and bold flag and is black. Each paragraph keeps its style and alignment |
| DocxProcessor.ProcessDocx | utils/docx_processor.py:33-38 | the in-place pass over a loaded document leaves the value `FormatDoc` gives for its old value |
| DocxProcessor.EnhanceBodyParagraphs | utils/docx_processor.py:35-36 | the body loop applies the paragraph rule to every body paragraph; it may change only the body paragraphs |
| DocxProcessor.EnhanceTables | utils/docx_processor.py:37-38 | the table loop applies the table rule to every table |
| DocxProcessor.EnhanceTableAt | utils/docx_processor.py:37-38 | one iteration of the table loop updates table j and leaves every other table as it was |
| DocxProcessor.FormatDocSpec | utils/docx_processor.py:35-38 | the number and order of body paragraphs and tables are kept, and body paragraphs get the paragraph rule. Cell paragraphs, even "Heading*" or "Title" ones, keep their style, alignment, run texts and bold flags; their runs only turn black |
| DocxProcessor.EnhanceParagraphIdempotent | utils/docx_processor.py:12-20 | the paragraph rule applied twice gives what it gives once. An empty heading gains no second run |
| DocxProcessor.EnhanceTableIdempotent | utils/docx_processor.py:23-30 | the table rule applied twice gives what it gives once |
| DocxProcessor.FormatDocIdempotent | utils/docx_processor.py:33-38 | formatting a formatted document changes nothing |
| GrammarCorrector.Strip | utils/grammar_corrector.py:12 | `text.strip()`: drops the Python whitespace at both ends (`LStrip`, then `RStrip`). The result is no longer than the text and, unless empty, begins and ends with a non-space |
| GrammarCorrector.StripEmptyIffBlank | utils/grammar_corrector.py:12 | `text.strip()` is empty exactly when every character of the text is a Python whitespace character |
| GrammarCorrector.Corrected | utils/grammar_corrector.py:12-15 | one visit to a paragraph value. Style and alignment are kept. A blank paragraph, or one whose text the corrector returns unchanged, is returned as it was. Any other ends reading `correct(text)` |
| GrammarCorrector.CorrectedDoc | utils/grammar_corrector.py:11-24 | the pass on a document value: `Corrected` on every body paragraph and on every paragraph of every cell of every table; table styles stay |
| GrammarCorrector.CorrectionCalls | utils/grammar_corrector.py:11-13 | the texts handed to `correct_text`, in call order: the non-blank texts of the body paragraphs, then of each table row by row, cell by cell |
| GrammarCorrector.CorrectParagraph | utils/grammar_corrector.py:12-15 | a blank paragraph is neither sent to the corrector nor changed. Otherwise its text is sent once. If the corrector returns the same text the paragraph stays untouched, runs included; if not, the paragraph is rewritten to read as the corrected text |
| GrammarCorrector.CorrectParagraphs | utils/grammar_corrector.py:11-15 | the loop over a list of distinct paragraphs corrects each of them. The texts it sends are the non-blank texts, in list order |
| GrammarCorrector.CorrectRow | utils/grammar_corrector.py:19-24 | the loops over a row's cells and their paragraphs correct every paragraph of the row. The texts sent are the row's non-blank texts, cell by cell |
| GrammarCorrector.CorrectCellAt | utils/grammar_corrector.py:19-24 | one iteration of the cell loop corrects cell c and leaves the other cells of the row unchanged |
| GrammarCorrector.CorrectTable | utils/grammar_corrector.py:18-24 | the row loop of one table corrects every cell paragraph and keeps the table style. The texts sent are the table's non-blank texts, row by row |
| GrammarCorrector.CorrectRowAt | utils/grammar_corrector.py:18-24 | one iteration of the row loop corrects row r and leaves the other rows unchanged |
| GrammarCorrector.CorrectTables | utils/grammar_corrector.py:17-24 | the table loop corrects every table. The texts sent are the non-blank texts of the tables, table by table |
| GrammarCorrector.CorrectTableAt | utils/grammar_corrector.py:17-24 | one iteration of the table loop corrects table j and leaves the other tables unchanged |
| GrammarCorrector.CorrectDocxParagraphs | utils/grammar_corrector.py:10-24 | the whole pass leaves the value `CorrectedDoc` gives for the old value. The texts sent to the corrector are `CorrectionCalls` of the old value: the body first, then the tables |
| GrammarCorrector.CorrectedDocParagraphs | utils/grammar_corrector.py:11-24 | every paragraph, body or cell, stays at its place in visiting order and keeps its style and alignment. A blank paragraph, or one the corrector returns unchanged, is left as it was, runs included. Every non-blank paragraph ends with the text `correct(original text)` |
| GrammarCorrector.CorrectedDocShape | utils/grammar_corrector.py:11-24 | the number of body paragraphs is kept. The number and order of tables and the table styles are kept. The counts of rows, cells and cell paragraphs are kept |
| GrammarCorrector.CallCount | utils/grammar_corrector.py:12-13 | the number of corrector calls equals the number of non-blank paragraphs |
| GrammarCorrector.CallsAreNonBlankTexts | utils/grammar_corrector.py:12-13 | a text is sent to the corrector exactly when some visited paragraph has it as a non-blank text |
| GrammarCorrector.SecondPassIsNoOp | utils/grammar_corrector.py:11-24 | when the corrector accepts its own output, a second pass changes nothing |
| Pipeline.ReplaceAll | main.py:16 | `s.replace(pat, rep)`: scanning from the left, every occurrence of `pat` that does not overlap one already replaced becomes `rep`. With no such occurrence (`Count` is 0) the string is returned unchanged |
| Pipeline.OutputPath | main.py:16 | every non-overlapping ".docx", scanned left to right, becomes "_professional.docx". A path with no ".docx" is returned unchanged |
| Pipeline.ReplaceAllAbsent | main.py:16 | `s.replace(pat, rep)` with no occurrence of `pat` in `s` returns `s` and counts no occurrence |
| Pipeline.OutputPathLength | main.py:16 | the output path is 13 characters longer than the input for every non-overlapping ".docx" replaced |
| Pipeline.OutputPathWithoutExt | main.py:16 | an input without ".docx" is its own output path, so the formatted file overwrites the input |
| Pipeline.OutputPathOfDocx | main.py:16 | `P + ".docx"`, where P has no ".docx", becomes `P + "_professional.docx"` |
| Pipeline.OutputPathContainsExt | main.py:16 | the output path contains ".docx" exactly when the input path does |
| Pipeline.ReplacedContainsRep | main.py:16 | an input with ".docx" gives an output with ".docx" |
| Pipeline.RunPipeline | main.py:8-22 | when the file does not exist there is no stage, no corrector call and no change. Otherwise the stages are load, correct, save to the output path, format that file in place, upload it. The corrector sees `CorrectionCalls` of the loaded document, and the document ends as `FormatDoc(CorrectedDoc(loaded))` |

## Left out

- `utils/confluence_uploader.py` is not part of this model. It is an HTTP upload configured from environment variables; `RunPipeline` only records the `Upload` stage.
- `load_docx` and `doc.save` are not modelled. Parsing and writing .docx belong to python-docx, so documents are already-parsed trees. Saving the file and loading it again before formatting (main.py:18-19) is treated as leaving the document value unchanged.
- `correct_text` is the parameter `correct`. The LanguageTool engine behind it is not modelled.
- SetText, CorrectParagraph, CorrectDocxParagraphs, RunPipeline: these contracts assume what python-docx's `paragraph.text` setter does, which the source does not show. The setter clears the paragraph's runs and adds one run holding the text, with no bold or colour of its own (`TextRuns`). So these contracts state that a rewritten paragraph loses its run formatting. The lemmas about the pass (`CorrectedDocParagraphs`, `CorrectedDocShape`) state only the text, style and alignment of a rewritten paragraph.
- RunPipeline: exceptions from the foreign calls are not modelled, because `correct` is a total function and loading, saving and restyling cannot fail. In the source, an exception ends `main`, and what is left depends on the stage. If `load_docx` (main.py:13, a file that exists but is not a valid .docx), `correct_text` (grammar_corrector.py:13, 22) or `doc.save` (main.py:18) raises, nothing is saved, formatted or uploaded, and corrections already made in memory stay. If the formatting stage raises, the corrected file stays saved under the output path, unformatted, and nothing is uploaded. The formatting stage can raise in its own `load_docx` or `doc.save` (docx_processor.py:34, 39), or at `table.style = 'Table Grid'` (docx_processor.py:25), which python-docx rejects when the document defines no such style. The model always runs all five stages when the file exists.
- Headers, footers, content controls and tables nested in a cell are not in `DocV`/`CellV`. The source's loops (docx_processor.py:26-28, 35-37; grammar_corrector.py:11, 17-20) reach only `doc.paragraphs` and the `cell.paragraphs` of `doc.tables`, which hold direct children only, so neither pass changes them. "Every paragraph" and "every run" in the contracts mean every one of the modelled tree.
- `os.path.exists` is the boolean parameter `fileExists`.
- The console `print`s of `main` (main.py:10, 12, 14, 17, 20, 21) and the `sys.argv` handling and usage message of main.py:25-29 are not modelled.
- Merged cells are not modelled. python-docx can return the same cell twice in `row.cells`; here every cell is a distinct object.
- Run aliasing is not captured. A run belongs to exactly one paragraph, so runs are held as values in their paragraph's `runs` list, and writing to a run replaces it in that list.
- The RGB channels are unbounded integers. The model writes only the constants 0, 51 and 153.
