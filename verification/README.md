# e-queo-pdf document assembly, modelled in Dafny

The e-queo-pdf script downloads the learning programs of a course from an
e-learning platform and turns each program into one Markdown document (then
HTML and PDF). Everything in it is HTTP, file or library plumbing except a
small pure pipeline, which this project models and proves things about:

- `shift_headings(md, level)`: the regular-expression substitution that puts
  `level` more `#` on the leading `#` run of every line of a longread body,
  pushing its headings down;
- `filter_longreads(program, longreads_ids)`: every section keeps only the
  materials whose id is a listed longread;
- `create_program_content_md(sections, longreads_content)`: the sections in
  the given order, each section's materials stably sorted by `order`, and
  for every material a block `# name`, two empty lines, its body with
  headings shifted one level, and a line break;
- the fragments of the driver around it: the flat list of material ids sent
  to the API (section by section), the sort of the sections by `order`, and
  the `[TOC] ` marker put in front of the document.

Modules, one per file: `Results` (Option and Result), `Seqs` (order-keeping
filter), `StableSort` (stable sort by an integer key), `Lines` (splitting at
and joining with `'\n'`), `Headings` (the substitution scan and its
line-wise reading), `HeadingProperties` (what the shift does to lines),
`Programs` (materials, sections, programs, the id list, the longread
filter) and `Assembly` (content lookup, block assembly, the document).

`shift_headings` is modelled as the scan `re.sub` performs: `^` matches at
the start of the body and after every `'\n'`; there a `#` starts a match of
`#+`, the whole run is kept and the shift written after it, and the scan
goes on mid-line. A lemma proves this equal to the line-wise reading (split
at `'\n'`, put the shift in front of every line that starts with `#`, join),
from which the line, length, identity and composition properties follow.

`text` is `None` when no content entry has the material's id, and also
when the first entry with that id holds a null page body: the fetch
returns the body unchecked, and `next` stops at the first matching entry
even if a later one has a body. `re.sub` then raises, which ends the run.
Page bodies are modelled as `Option<string>`, `None` for a null body, and
the model returns `Failure(MissingContent(id))` for the first such
material in writing-out order instead of forbidding either case.

The body used for a material is the content of the first entry with its id.
The content list holds one entry per longread page, so for a longread with
several pages only the first page's body reaches the document; the model
keeps this behaviour.

## Model

| member | source | states |
|---|---|---|
| `Seqs.Filter` | e-queo-pdf.py:163-165 | an element is in the filtered list exactly when it is in the input and passes the predicate; the result is no longer than the input |
| `Seqs.FilterKeepsOrder` | e-queo-pdf.py:163-165 | the filtered list is read off the input at strictly increasing positions, and every position whose element passes is among them: the passing elements, all of them, in their original relative order |
| `Seqs.FilterIdempotent` | e-queo-pdf.py:163-165 | filtering a second time by the same predicate changes nothing |
| `StableSort.SortBy` | e-queo-pdf.py:173 | `sorted(key=...)`: the result's keys never decrease, it is a permutation of the input, and for every key the elements carrying it appear in the same relative order as in the input (stability) |
| `StableSort.StableSortIsUnique` | e-queo-pdf.py:216-217 | two sequences that are both sorted by key and agree on every key's subsequence are equal, so any stable sort, Python's included, gives exactly `SortBy`'s result |
| `StableSort.InsertSorted` | e-queo-pdf.py:173 | inserting into a key-sorted sequence keeps it sorted |
| `StableSort.InsertWithKey` | e-queo-pdf.py:173 | the inserted element comes first among the elements of its key and the subsequences of the other keys are unchanged, which is what makes the sort stable |
| `Lines.SplitLinesShape` | e-queo-pdf.py:185 | the lines `^` under `re.MULTILINE` starts: one more line than the text has `'\n'` characters, none containing `'\n'` |
| `Lines.JoinSplit` | e-queo-pdf.py:185 | joining the lines of a text with `'\n'` gives the text back |
| `Lines.SplitJoin` | e-queo-pdf.py:185 | splitting lines joined with `'\n'` gives the lines back when none of them holds a `'\n'` |
| `Headings.LeadingHashes` | e-queo-pdf.py:185 | what `#+` matches greedily: a run of `#` at the front that cannot be extended |
| `Headings.SubstituteByLines` | e-queo-pdf.py:185 | the substitution scan, started at a line start or mid-line, equals shifting the lines the scan reaches line starts of and joining them again |
| `Headings.ShiftHeadingsByLines` | e-queo-pdf.py:183-186 | `shift_headings` equals the line-wise reference: split at `'\n'`, put `'#' * level` in front of every line starting with `#`, join |
| `HeadingProperties.LinesOfShifted` | e-queo-pdf.py:183-186 | the lines of the shifted body are the body's lines, each `#`-led one behind the shift |
| `HeadingProperties.ShiftHeadingsLinewise` | e-queo-pdf.py:183-185 | every line starting with `#` gets exactly `level` more `#` in front and nothing else; every other line is unchanged; the number of lines and of `'\n'` characters is kept |
| `HeadingProperties.ShiftHeadingsByNothing` | e-queo-pdf.py:184-185 | a level of zero or below (`'#' * level` is empty) leaves the body unchanged |
| `HeadingProperties.ShiftHeadingsCompose` | e-queo-pdf.py:183-186 | shifting by `a` and then by `b` is shifting once by the sum of both widths |
| `HeadingProperties.ShiftHeadingsLength` | e-queo-pdf.py:183-186 | the shifted body is longer than the body by the width times the number of lines starting with `#` |
| `HeadingProperties.ShiftedBodyHasNoTopHeading` | e-queo-pdf.py:177 | after a shift by one level or more every `#`-led line starts with `##`, so the body holds no first-level heading line |
| `HeadingProperties.TopHeadingsAtNewline` | e-queo-pdf.py:179 | a `'\n'` between two texts separates their first-level heading lines |
| `Programs.MaterialIds` | e-queo-pdf.py:90-92 | an id is in the request list exactly when some section holds a material with that id |
| `Programs.CollectMaterialIds` | e-queo-pdf.py:90-92 | the nested loop over sections and their materials yields the ids section by section, each section's in stored order |
| `Programs.FilterLongreads` | e-queo-pdf.py:161-167 | the program's name and order, the number of sections and each section's id, name and order are unchanged; a material stays in its section exactly when its id is listed |
| `Programs.FilterLongreadsKeepsOrder` | e-queo-pdf.py:162-166 | the kept materials of every section are its listed ones, all of them, in their original relative order |
| `Programs.FilterLongreadsIdempotent` | e-queo-pdf.py:161-167 | filtering a program a second time by the same ids changes nothing |
| `Assembly.FindContent` | e-queo-pdf.py:175-176 | the result is the content of the first entry with the id, so `None` when there is no such entry or its body is null, even if a later entry with the id has a body |
| `Assembly.AssembleMaterials` | e-queo-pdf.py:174-179 | assembly succeeds exactly when every material's first content entry exists and holds a body; a failure names the first material without one, every material before it having a body |
| `Assembly.AssembleAppend` | e-queo-pdf.py:174-179 | assembling two runs of materials one after the other is the concatenation of their assemblies, the first failure winning |
| `Assembly.SectionsInOrder` | e-queo-pdf.py:172-179 | the section loop equals assembling all written-out materials at once: sections in the order given, each section's materials in sorted order |
| `Assembly.BlockTopHeadings` | e-queo-pdf.py:179 | a material's block contributes exactly one first-level heading line, `# name`, when the name holds no `'\n'` |
| `Assembly.AssembledTopHeadings` | e-queo-pdf.py:172-179 | when names hold no `'\n'`, the first-level heading lines of the assembled text are the material headings, one per material, in writing-out order |
| `Assembly.EmittedFromProgram` | e-queo-pdf.py:214-217 | a material is written out exactly when a section of the program holds it and its id is listed |
| `Assembly.EmittedNamesAreSingleLines` | e-queo-pdf.py:214-217 | every written-out material is one of the program's, so it inherits their single-line names |
| `Assembly.TocThenBody` | e-queo-pdf.py:226 | the document starts with the `[TOC] ` marker line and an empty line, which add no heading |
| `Assembly.DocumentHeadings` | e-queo-pdf.py:214-226 | the document starts with the marker, and its first-level heading lines are exactly the headings of the written-out materials, in document order |
| `Assembly.DocumentSucceeds` | e-queo-pdf.py:214-226 | the document is built exactly when every listed material of the program has a body (its first content entry exists and is not null); a failure names a listed material of the program that has none |

## Left out

- HTTP requests, pagination loops and `SystemExit` aborts in `get_learning_programs`, `get_longread_ids`, `get_longreads_uuids` and `get_longread_content` (network I/O); the longread id list and the content list they produce are parameters of the model.
- The reshaping of the API's JSON answers into programs, sections and materials, and the filter on material type `'longread'` (parts of the network answers); the datatypes mirror the reshaped records.
- `get_config_data` and the module-level token and module-id reads (configuration file I/O).
- Header construction with a random user agent (an external library and randomness).
- `sanitize_filename`, the Markdown-to-HTML rendering with the table-of-contents extension, and the HTML-to-PDF conversion (foreign libraries whose behaviour is not visible here).
- Directory creation, file writes, logging, timing and the PDF options, including the floating-point `zoom` (side effects and floats).
- The loop of `main` over all programs: each program is processed on its own, so the model builds one program's document.
- Material and section orders are modelled as integers. Float or string orders, which Python sorts, cannot be represented. Mixed orders that cannot be compared, on which `sorted` raises, are not modelled.
- `filter_longreads` changes the program in place and returns it; the model returns a new program, which is what the caller stores.
