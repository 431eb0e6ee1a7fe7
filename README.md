# Budget to Olist conversion — a Dafny model

This project models the core of `src/conversor_olist.py`. That file turns a customer budget
spreadsheet ("orçamento") into rows for an Olist import template. The model covers:

- the text normaliser `normalizar_texto`. A missing cell becomes `""`. Any other cell is
  stringified, lower-cased and stripped, and every run of whitespace becomes one space.
  The model proves it equal to joining the words of the lower-cased text with single
  spaces. So two names meet in the lookup exactly when they differ only in case, in whitespace
  at their ends, or in the length of a non-empty whitespace run between two words.
- the header locator `encontrar_linha_cabecalho`. It finds the first preview row whose
  normalised cells contain every normalised keyword.
- the body of `converter_orcamento_para_olist` from the catalogue read on:
  - the metadata scan for `orçamento #` and `data` in column 0, with the value taken from
    column 1;
  - the normalisation of the item column labels;
  - the catalogue's `MODELO_NORMALIZADO_BUSCA` column;
  - the customer selection;
  - the item loop, which skips blank rows, looks the product up and logs misses;
  - the padding of each record and the projection onto the template's columns;
  - the sorted summary of the unmapped log.

Spreadsheets come in already parsed:

- a cell is `Cells.Cell`;
- a sheet read with a header is a `Cells.Table`, i.e. column names plus records
  `map<string, Cell>`;
- the budget is a `Pipeline.Budget`, i.e. the ten-row preview read without a header plus
  the item table read at its header row.

The modules follow the program's parts:

| module | file | part |
|---|---|---|
| Cells | cells.dfy | cells, records, `str()` of a cell, filtering a table by a column value |
| Text | text.dfy | the normaliser and its properties |
| Header | header.dfy | the header locator |
| Catalogue | catalogue.dfy | the catalogue frame, its search column and product lookup |
| Customers | customers.dfy | customer id coercion and customer selection |
| Report | report.dfy | Python's string order and the sorted, de-duplicated summary |
| Pipeline | pipeline.dfy | what a conversion computes, as functions, and its properties |
| Converter | convert.dfy | the conversion as the program runs it: methods with loops, proved equal to `Pipeline.ConversionOf` |

The catalogue frame is a class, `Catalogue.Frame`. The program adds its search column in place,
and so does the model. The metadata scan, the item loop and the padding loop are methods
with loop invariants. Each method is proved to compute the function that specifies it. The
properties are lemmas about those functions.

Some behaviour of the code is easy to miss:

- The catalogue is searched on its `MODELO` column, and `MODELO OLIST` supplies the
  description of a product that is found.
- No lookup is made, and no miss is logged, when the catalogue has no records: the guard at
  src/conversor_olist.py:156 skips both. Every product of such a conversion is left without an
  `ID produto`, and none of them appears in the unmapped log.
- A structural failure, a missing `MODELO` column, is not reported distinctly. It gives an
  empty table with no columns, as an unknown customer gives an empty table with the template's
  columns.

## Model

| member | source | states |
|---|---|---|
| Cells.FirstFrom | src/conversor_olist.py:158-161 | the first position from `i` on whose element satisfies the condition; none exactly when no element from `i` on does |
| Cells.FirstRowWith | src/conversor_olist.py:158-161 | filtering records by `column == v` and taking the first gives the first index whose cell equals `v` (a missing cell equals nothing); none exactly when no record matches |
| Text.LowerChar | src/conversor_olist.py:9 | lower-casing a character leaves no upper-case letter, keeps whitespace whitespace, and leaves every other character alone |
| Text.TrimLeft | src/conversor_olist.py:9 | left trimming never lengthens a text and removes at least a leading whitespace character |
| Text.TrimLeftShape | src/conversor_olist.py:9 | left trimming removes a whitespace prefix and keeps the remaining suffix, which starts with a visible character |
| Text.TrimRightShape | src/conversor_olist.py:9 | right trimming removes a whitespace suffix and keeps the remaining prefix, which ends with a visible character |
| Text.StripTrimmed | src/conversor_olist.py:9 | a stripped text has no whitespace at either end, and stripping such a text changes nothing |
| Text.StripNoUpper | src/conversor_olist.py:9 | stripping a lower-cased text keeps it free of upper-case letters |
| Text.Collapse | src/conversor_olist.py:11 | collapsing whitespace runs never lengthens a text; what it produces is pinned by `Text.CollapseTrimmed` |
| Text.CollapseEnds | src/conversor_olist.py:11 | collapsing keeps a text empty or non-empty, and keeps whether it starts or ends with whitespace |
| Text.CollapseSingleSpaced | src/conversor_olist.py:11 | after collapsing, every whitespace character is a plain space and no two are adjacent |
| Text.CollapseNoUpper | src/conversor_olist.py:11 | collapsing adds no upper-case letter |
| Text.NormalizeShape | src/conversor_olist.py:6-12 | a missing value normalises to `""`; every result is single-spaced, has no whitespace at either end and no upper-case letter |
| Text.TrimLeftKeepsText | src/conversor_olist.py:9 | left trimming loses no visible character |
| Text.TrimRightKeepsText | src/conversor_olist.py:9 | right trimming loses no visible character |
| Text.CollapseKeepsText | src/conversor_olist.py:11 | collapsing loses, adds or reorders no visible character |
| Text.NormalizeKeepsText | src/conversor_olist.py:9-11 | normalising a text keeps its visible characters, lower-cased, in order |
| Text.LowerFixed | src/conversor_olist.py:9 | a text without upper-case letters is its own lower-case form |
| Text.CollapseFixed | src/conversor_olist.py:11 | a single-spaced text is its own collapse |
| Text.NormalizeIdempotent | src/conversor_olist.py:6-12 | normalising a normalised value gives it back |
| Text.CollapseTrimmed | src/conversor_olist.py:11 | on a text without whitespace at its ends, collapsing joins its words with exactly one space: an inner whitespace run becomes one space and never vanishes |
| Text.NormalizeWords | src/conversor_olist.py:6-12 | a value that is not missing normalises to the words of its lower-cased text joined by single spaces |
| Text.NormalizeSameWords | src/conversor_olist.py:6-12 | two texts normalise alike exactly when their lower-cased forms have the same words, so names meet in the lookup exactly when they differ only in case, in whitespace at their ends, or in the length of a non-empty whitespace run between two words |
| Header.FindHeaderRow | src/conversor_olist.py:14-20 | the first preview row whose normalised cells contain every normalised keyword; none exactly when no row qualifies |
| Header.MatchIgnoresOrderAndExtras | src/conversor_olist.py:17-18 | a row that qualifies still qualifies with its cells reordered or with cells added |
| Report.BelowIrreflexive | src/conversor_olist.py:191 | no text sorts before itself |
| Report.BelowTransitive | src/conversor_olist.py:191 | the string order is transitive |
| Report.BelowTotal | src/conversor_olist.py:191 | any two different texts are ordered one way or the other |
| Report.StrictlySortedDistinct | src/conversor_olist.py:191 | a strictly ascending list holds no entry twice |
| Report.Insert | src/conversor_olist.py:191 | inserting into a strictly ascending list keeps it strictly ascending and adds exactly the new entry |
| Report.SortedUnique | src/conversor_olist.py:190-191 | the summary is strictly ascending and holds exactly the entries of the log |
| Catalogue.LookupProduct | src/conversor_olist.py:154-167 | nothing is looked up exactly when the name is empty or the catalogue is; a miss exactly when no entry has the key; a hit gives the `ID` and `MODELO OLIST` of the first entry with the key |
| Catalogue.FirstEntryWins | src/conversor_olist.py:158-163 | the first entry whose key equals a non-empty name is the one the lookup returns |
| Catalogue.IndexedFrame | src/conversor_olist.py:32 | after the search column is added, every record holds its normalised `MODELO` as text, and the records give exactly the lookup entries |
| Catalogue.FrameLookup | src/conversor_olist.py:158-161 | filtering the frame on its search column finds the same record as the first-entry search |
| Catalogue.Frame.constructor | src/conversor_olist.py:29 | the frame holds the catalogue sheet's columns and records |
| Catalogue.Frame.AddSearchColumn | src/conversor_olist.py:31-33 | every record gains its normalised `MODELO` under `MODELO_NORMALIZADO_BUSCA`, and the column is listed once; nothing else changes |
| Customers.SelectCustomer | src/conversor_olist.py:116-134 | the first record whose `ID` equals the coerced id; none exactly when the registry is empty, lacks `ID`, the id cannot be coerced, or no record matches |
| Pipeline.LastLabelledNone | src/conversor_olist.py:71-76 | a label yields no value exactly when no row carries it |
| Pipeline.LastLabelledWins | src/conversor_olist.py:71-76 | the last row carrying a label supplies its value: earlier matches are overwritten |
| Pipeline.LabelIndex | src/conversor_olist.py:143-145 | the first column with a given normalised label; none exactly when no column has it |
| Pipeline.KeptAppend | src/conversor_olist.py:141-149 | skipping blank rows distributes over concatenation, so kept rows keep their input order |
| Pipeline.KeptMembers | src/conversor_olist.py:147-149 | a row is kept exactly when product, quantity and unit price are not all missing |
| Pipeline.Padded | src/conversor_olist.py:184-186 | padding adds exactly the missing template columns, as NA, and keeps every computed field |
| Pipeline.Project | src/conversor_olist.py:197 | a projected record has exactly the template's columns, with NA where the record lacks one |
| Pipeline.ProjectPadded | src/conversor_olist.py:184-197 | padding before the projection changes nothing in the projected record |
| Pipeline.EmittedRows | src/conversor_olist.py:141-188 | one record per kept item row, in order, each the row's padded computed fields |
| Pipeline.MissesAppend | src/conversor_olist.py:141-167 | the log of consecutive parts of the item table is the concatenation of their logs |
| Pipeline.RecordFields | src/conversor_olist.py:173-186 | an output record has exactly the template's columns; it carries the proposal, date, contact, quantity and unit price wherever the template has them, and NA in every non-computed column |
| Pipeline.ProductResolution | src/conversor_olist.py:151-169 | an empty name or empty catalogue leaves both product fields NA and logs nothing; the first entry with the name gives `ID` and `MODELO OLIST` and logs nothing; a name no entry has leaves both NA and logs exactly one entry |
| Pipeline.ScanMetadataNone | src/conversor_olist.py:64-76 | no value is found for a field exactly when the preview is empty, has one column, or no row carries its label; a value that is found can itself be a missing cell, which the record then holds as NA |
| Pipeline.ScanMetadataLast | src/conversor_olist.py:68-76 | with more than one column, the last row carrying a label supplies the field from column 1 |
| Pipeline.EarlyExits | src/conversor_olist.py:31-136 | no `MODELO` column gives an empty table with no columns; no matching customer gives an empty table with the template's columns and an empty log; no `Nome` column raises |
| Pipeline.ConversionRecords | src/conversor_olist.py:139-197 | on the main path there is one record per kept item row, in order, each the row's computed fields projected onto the template; the log holds the row misses and the summary is its sorted distinct entries |
| Pipeline.EveryRecordCarriesContext | src/conversor_olist.py:134-136 | every record carries the first matching customer's `ID` and `Nome` and the scanned proposal and date, has exactly the template's columns, and is NA in non-computed columns |
| Pipeline.ItemsPassThrough | src/conversor_olist.py:180-181 | the quantity and unit price of each kept row reach its record unchanged, a missing one as NA |
| Pipeline.OutputSchema | src/conversor_olist.py:194-197 | on every path, the table's columns are the template's (none without `MODELO`) and every record has exactly those columns |
| Pipeline.SummaryOfLog | src/conversor_olist.py:190-191 | the summary is strictly ascending, holds no entry twice, and holds exactly the logged entries |
| Converter.ScanPreview | src/conversor_olist.py:64-84 | the metadata scan, run only on a preview with rows and more than one column, computes the scanned proposal and date |
| Converter.ScanLabels | src/conversor_olist.py:71-76 | the loop over the rows leaves, for each label, the second cell of the last row whose normalised first cell is that label, and nothing when no row is |
| Converter.PadRecord | src/conversor_olist.py:184-186 | the padding loop computes the padded record |
| Converter.AssembleRows | src/conversor_olist.py:139-188 | the item loop computes the emitted records and the unmapped log |
| Converter.ResolveProduct | src/conversor_olist.py:151-167 | the lookup in the indexed frame agrees with the lookup over the catalogue entries, and logs one entry for a miss |
| Converter.Convert | src/conversor_olist.py:29-203 | the whole conversion computes `Pipeline.ConversionOf` |

## Left out

- Spreadsheet I/O is not modelled: `read_excel`, `ExcelFile`, choosing the `Orçamento` sheet,
  the template sheet check, and the `skiprows=2` fallback read (src/conversor_olist.py:29-61,
  92, 99). These are library calls, so the model takes the parsed sheets as inputs.
  `Header.FindHeaderRow` is computed, but its result only chooses the read. The item table is
  the result of that read.
- The exception handlers around reading (src/conversor_olist.py:109-114) are left out for the
  same reason.
- Date conversion with `pd.to_datetime` (src/conversor_olist.py:77-83) is not modelled. It
  depends on the library and the locale. The date cell passes through unchanged.
- Parsing of a numeric customer id (src/conversor_olist.py:122-123) is not modelled. It is the
  parameter `parseNumber`; `None` stands for the `ValueError` that leaves the customer
  unfound. Other exceptions of the customer filter are not modelled.
- Converter.ScanPreview: the first cells of the preview rows are normalised before the label
  loop rather than inside it. Normalising has no effects, so the loop compares the same values.
- Logging to standard error is not modelled. The exception is the unmapped log, which the
  model returns with its sorted summary instead of printing it.
- Text.LowerChar: lower-casing covers ASCII and Latin-1 upper-case letters only, not the rest
  of Unicode.
- Cells are not pandas values. Numbers are integers (`Num`). Any other value is carried by its
  rendering (`Other`), so an integer never equals a float of the same value. NaN, `None` and
  `pd.NA` are all `Missing`.
- Duplicate column names in the template or the catalogue are not modelled. Duplicate
  normalised item labels that are read raise `AmbiguousItemColumn` on the first item row; the
  cells of such a column are not modelled.
- The dtype changes pandas makes when frames are concatenated are not modelled.
- src/main.py (HTTP routes, files, Excel writing) and src/static/js/script.js (browser UI) are
  not part of this model.
