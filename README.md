# Vision image tagging batch, modelled in Dafny

`script.py` annotates a folder of scanned archive pages. For every `.jpg` in `input/` it does the following:

- captions the image with a vision model, grounds the caption's phrases, and asks a chat model to reduce the grounded labels to keywords;
- reads the source title, year, issue and page from the file name with a fixed regular expression;
- translates the keywords to Arabic;
- builds a twelve-field metadata record and moves the image into a fresh `Run N - <timestamp>` folder under `output/`;
- writes all records to a spreadsheet with one header row.

The model keeps the script's structure, one module per concern:

| file | module | models |
|---|---|---|
| `wrappers.dfy` | `Wrappers` | `Option` and `Result` |
| `text.dfy` | `Text` | the string operations the script relies on: ASCII `\d`, `int`/`str` on naturals, `str.replace`, `str.split(',')`, `', '.join`, `str.strip` |
| `paths.dfy` | `Paths` | `os.path.basename`, `os.path.join` and `os.path.splitext` on POSIX paths |
| `filename_parser.dfy` | `FilenameParser` | `extract_metadata_from_filename`: the pattern as a match relation, the backtracking matcher that picks the first match `re.match` would report, and the group-dictionary updates as a method |
| `keywords.dfy` | `Keywords` | `sorted(set(split_string_into_list(...)))` under Python's string order |
| `annotation.dfy` | `Annotation` | `process_image`: a specification function `Annotate` and a step-by-step method `ProcessImage`, with every model, service and file-system call passed in as a `Services` value |
| `exporter.dfy` | `Exporter` | `save_metadata_to_excel`: a `Worksheet` class whose cell map the two writing loops fill in place |
| `run_versioner.dfy` | `RunVersioner` | `get_next_run_number` and the run folder's name |
| `batch.dfy` | `Batch` | the top level: the loop over the listing that stops at the first failure, then the export |

Points where the script's behaviour is easy to misread, and which the model follows:

- The pattern is applied with `re.match`, so it is anchored at the start only. Text after `jpg` is ignored, and the `.` before `jpg` matches any character except a newline.
- There is no per-image error handling. The first image that fails ends the loop, and nothing is exported.
- KEYWORDS holds the chat model's raw reply. The sorted, de-duplicated keyword list is computed and then never used.
- A run number is read from any folder whose name contains `Run ` followed by digits, anywhere in the name. The first such occurrence counts.
- The title suffix is the reply's first 30 characters, with spaces turned into `_` and commas dropped.

## Model

| member | source | states |
|---|---|---|
| Text.DigitRun | script.py:58 | the length of the maximal run of ASCII digits from a position (what a greedy `\d+` takes) |
| Text.DigitRunIs | script.py:58 | a digit run that ends at a non-digit or at the end of the text is exactly DigitRun |
| Text.NatToString | script.py:124 | `str()` of a natural is a non-empty string of digits with no leading zero; it starts with `0` exactly for zero |
| Text.NatToStringRoundTrip | script.py:124-126 | reading back the decimal text of `n` gives `n` |
| Text.Replace | script.py:61-62 | `str.replace`: every non-overlapping occurrence of the pattern, scanned from the left, replaced; pinned by ReplaceAbsent, ReplaceSpaces, ReplaceCommas and ReplacePrefix |
| Text.ReplaceAbsent | script.py:61-62 | `replace` of a pattern whose first character does not occur leaves the text unchanged |
| Text.ReplaceSpaces | script.py:123 | `replace(' ', '_')` turns each space into an underscore and keeps the length |
| Text.ReplaceCommas | script.py:123 | `replace(',', '')` is the text without its commas |
| Text.WithoutSpec | script.py:123 | dropping commas leaves no comma, no longer a string, and only characters of the input |
| Text.Split | script.py:110 | `split(',')` gives at least one part, and no part holds the separator |
| Text.JoinWith | script.py:100 | `sep.join(xs)`: the parts with the separator between neighbours; SplitJoin reads it back |
| Text.SplitJoin | script.py:100-110 | splitting separator-free parts joined by that separator gives the parts back |
| Text.SplitAtFirstSeparator | script.py:110 | the part before the first separator is split off first |
| Text.Strip | script.py:110 | `str.strip()`: the text between the leading and the trailing whitespace runs; characterised by StripSpec |
| Text.StripSpec | script.py:110 | `strip()` gives a stripped string and removes only whitespace from either end |
| Text.StripIdempotent | script.py:110 | stripping twice is stripping once |
| Text.StripKeeps | script.py:110 | a stripped string holds only characters of the input |
| Paths.LastIndexOf | script.py:117 | the last position of a character, or -1; no later position holds it |
| Paths.Basename | script.py:117 | `basename` holds no `/`, is a suffix of the path, and is the whole path or follows a `/` |
| Paths.BasenameLongest | script.py:117 | the basename is the longest `/`-free suffix: the whole path, or preceded by a `/` |
| Paths.PathJoin | script.py:141 | `os.path.join(a, b)`: an absolute `b` replaces `a`, otherwise one `/` is inserted unless `a` is empty or ends in `/`; BasenameOfJoin states the use made of it |
| Paths.BasenameOfJoin | script.py:141 | the basename of a folder joined with a plain name is that name |
| Paths.SplitExt | script.py:123-127 | the two parts of `splitext` concatenate to the path; the extension is empty or a `.` followed by no `.` and no `/` |
| Paths.AfterLastDot | script.py:127 | after the last `.` of the last path component there is no further `.` and no `/` |
| Paths.SplitExtFound | script.py:127 | the extension is not empty when the last component has a `.` with a non-dot character before it |
| Paths.SplitExtJpg | script.py:127 | a plain `.jpg` name splits into its stem and `.jpg` |
| FilenameParser.IsMatch | script.py:58 | the pattern matches at the start with the given group lengths: a non-empty newline-free title, `_`, four digits, `_iss`, digits, `_Page`, digits, a non-newline character, `jpg` |
| FilenameParser.Greedy | script.py:58 | what `re.match` reports: the search from the longest newline-free title down; GreedyIsFirstMatch states it is the first match in backtracking order |
| FilenameParser.TryAtSound | script.py:58 | whatever the matcher returns for a SOURCE_TITLE length is a match of the pattern's tail at that length |
| FilenameParser.TryAtFindsBest | script.py:58 | when any tail matches at a length, the matcher finds one with the same issue digits and at least as many page digits |
| FilenameParser.SearchIsFirstMatch | script.py:58 | searching title lengths from the longest down returns a match no later in backtracking order than any match up to that length |
| FilenameParser.GreedyIsFirstMatch | script.py:58-59 | `re.match` succeeds exactly when the pattern has a match, and it reports the first match in backtracking order |
| FilenameParser.GroupPrefixes | script.py:58-60 | in a match, SOURCE_NUMBER is `iss` plus digits and PAGE is `Page` plus digits |
| FilenameParser.ReplacePrefix | script.py:61-62 | removing `iss` or `Page` from prefix plus digits leaves the digits |
| FilenameParser.NormalizeGroups | script.py:60-63 | after the in-place `replace` and the `pop`, the dictionary holds title, date, issue and page digits under the four final keys, and no PAGE key |
| FilenameParser.FilenameMetadata | script.py:56-67 | the title, year, issue digits and page digits of the reported match under the four final keys, or the wrapped mismatch error; ParsesArchiveName and RejectsNameWithoutUnderscore pin both outcomes |
| FilenameParser.ExtractMetadata | script.py:56-67 | the method's result is FilenameMetadata: the four normalised groups of the first match, or the wrapped mismatch error naming the file |
| FilenameParser.ArchiveMatches | script.py:58 | `TITLE_YYYY_issN_PageM` followed by any non-newline character and `jpg` matches, split at its parts |
| FilenameParser.ArchiveMatchesAtMost | script.py:58 | on such a name, with no `_` in the title, no match takes a longer title or more issue digits, or more page digits than the name has |
| FilenameParser.GreedyOnArchiveName | script.py:58 | on such a name the reported match is the split at the title, issue and page |
| FilenameParser.ParsesArchiveName | script.py:56-63 | such a name yields exactly its title, year, issue and page under SOURCE_TITLE, DATE, SOURCE_NUMBER and PAGE_NUMBER |
| FilenameParser.MatchHasUnderscore | script.py:58 | every match needs an underscore in the name |
| FilenameParser.RejectsNameWithoutUnderscore | script.py:64-67 | a name without `_` fails with the error naming the file |
| FilenameParser.TrailingTextIgnored | script.py:58 | anchored at the start only: a match stays a match whatever follows, and the name is accepted |
| FilenameParser.ExampleRandomName | script.py:64-67 | `randomfile.jpg` is refused with the wrapped mismatch error |
| Keywords.Less | script.py:112 | Python's `<` on str: lexicographic by code point, a proper prefix first; a strict total order by the lemmas below |
| Keywords.LessIrreflexive | script.py:112 | no string sorts before itself |
| Keywords.LessTransitive | script.py:112 | Python's string order is transitive |
| Keywords.LessTotal | script.py:112 | any two distinct strings are ordered one way |
| Keywords.InsertElems | script.py:112 | inserting adds exactly the new element |
| Keywords.InsertSpec | script.py:112 | inserting into an increasing list keeps it increasing and adds exactly the element |
| Keywords.SortedSet | script.py:112 | `sorted(set(xs))` by insertion; SortedSetSpec and IncreasingUnique pin it as the one increasing list of the elements |
| Keywords.SortedSetSpec | script.py:112 | `sorted(set(xs))` is strictly increasing and has exactly the elements of `xs` |
| Keywords.IncreasingUnique | script.py:112 | two strictly increasing lists with the same elements are equal |
| Keywords.Tokens | script.py:109-110 | `split_string_into_list`: each comma-separated field, stripped, in order |
| Keywords.TokensSpec | script.py:109-110 | splitting the reply at commas gives at least one token, each stripped and comma-free |
| Keywords.Canonical | script.py:112 | `sorted(set(split_string_into_list(reply)))`; its properties are CanonicalSpec and the two lemmas after it |
| Keywords.CanonicalSpec | script.py:109-112 | the keyword list is strictly increasing, holds exactly the reply's tokens, is non-empty, and each entry is stripped and comma-free |
| Keywords.CanonicalIgnoresOrder | script.py:112 | two replies with the same tokens give the same keyword list, whatever the order or repetition |
| Keywords.CanonicalIdempotent | script.py:109-112 | re-joining the keyword list with commas and normalising again gives the same list |
| RunVersioner.FindRun | script.py:175 | the first position at or after `i` where `Run ` and a digit occur, and none earlier |
| RunVersioner.RunNumberOf | script.py:175 | `int(re.search(r'Run (\d+)', name).group(1))`: the greedy digit run after the first `Run ` followed by a digit, or nothing |
| RunVersioner.MaxRun | script.py:176 | `max(run_numbers, default=0)`; MaxRunSpec states it |
| RunVersioner.NextRunNumber | script.py:176 | the next run number is at least 1 |
| RunVersioner.MaxRunSpec | script.py:175-176 | `max(..., default=0)` bounds every folder's run number and is 0 or one of them |
| RunVersioner.NextRunNumberSpec | script.py:172-176 | the next run number exceeds every existing run number, and is 1 or one more than some folder's |
| RunVersioner.NextRunIgnoresOrder | script.py:174-176 | the listing order of the output folder does not change the next run number |
| RunVersioner.NonMatchingFolderIgnored | script.py:175 | a folder without `Run <digits>` in its name does not change the next run number |
| RunVersioner.RunFolderName | script.py:188 | `Run {n} - {timestamp}`; RunFolderNameRoundTrip reads the number back |
| RunVersioner.RunFolderNameRoundTrip | script.py:175-188 | the run number read back from `Run N - <timestamp>` is `N`, whatever the timestamp |
| RunVersioner.NextRunAfterNewFolder | script.py:176-188 | once the new run folder exists, the next run number is one more |
| RunVersioner.ExampleNextRun | script.py:172-176 | with folders for runs 1 and 3, in either order, the next run is 4 |
| Annotation.Prefix | script.py:123 | `s[:n]`: the whole string when it has at most `n` characters, otherwise its first `n` |
| Annotation.Title | script.py:123 | the stem, `__`, and the reply's first 30 characters with spaces replaced and commas removed; TitleShape characterises it |
| Annotation.Dimensions | script.py:125-126 | `f"{height} x {width}"`; DimensionsRoundTrip reads it back |
| Annotation.Analyse | script.py:90-114 | the first try block: caption, grounding, chat on the `, `-joined labels, each failure wrapped as the script does; AnalyseSucceeds states when it succeeds |
| Annotation.Describe | script.py:116-145 | the second try block: file-name metadata, translation, size, move, and the updated record; AnnotateRecord states the record |
| Annotation.Annotate | script.py:79-145 | the whole of `process_image` with each stage's error message; AnnotateSucceeds and AnnotateRecord state its outcome |
| Annotation.ProcessImage | script.py:79-145 | the step-by-step procedure computes Annotate: the same record or the same wrapped error for every stage |
| Annotation.AnnotateSucceeds | script.py:79-145 | a record is produced exactly when opening, both vision tasks, the chat, the file-name parse, the translation, the size lookup and the move all succeed |
| Annotation.AnalyseSucceeds | script.py:90-114 | the analysis succeeds exactly when caption, grounding and chat succeed; the chat is sent the grounding labels joined by `, `; the caption is the alt text |
| Annotation.AnnotateValue | script.py:116-143 | a finished record is the file-name metadata updated with the eight fields |
| Annotation.RecordKeysOf | script.py:129-138 | the update adds eight keys that overwrite none of the file-name fields, giving twelve keys |
| Annotation.RecordOf | script.py:129-138 | after the update, each of the eight fields sits under its key and the file-name fields are unchanged |
| Annotation.AnnotateRecord | script.py:116-143 | a finished record has the twelve keys and holds the name, the title, `AI-Generated: ` plus the caption, the extension, the size in decimal, the dimensions height first, the translation, and the raw reply as KEYWORDS |
| Annotation.AnnotateKeys | script.py:129-138 | a finished record has exactly the twelve keys |
| Annotation.AnnotateKeepsMetadata | script.py:118-129 | the four file-name fields reach the record unchanged |
| Annotation.MetadataKeys | script.py:60-63 | parsed file-name metadata has exactly SOURCE_TITLE, DATE, SOURCE_NUMBER and PAGE_NUMBER |
| Annotation.UnmatchedNameFails | script.py:116-145 | once the models have run, a name that does not fit the pattern fails with the doubly wrapped mismatch message, before the move |
| Annotation.TitleShape | script.py:123 | the title is the stem, `__`, and the reply's first 30 characters with spaces as `_` and commas dropped; the suffix has at most 30 characters and no space or comma |
| Annotation.DimensionsRoundTrip | script.py:125-126 | DIMENSIONS reads back as the height, ` x `, then the width |
| Annotation.JpgFileType | script.py:123-127 | a plain `.jpg` name that fits the pattern has FILETYPE `.jpg`, and its title starts with the name minus `.jpg` |
| Annotation.MovedKeepsName | script.py:141 | the image lands in the output folder under its own name |
| Annotation.ArchiveNameShape | script.py:117-127 | an archive name is a plain name ending in `.jpg`, whose stem is the pattern's parts |
| Annotation.ArchiveImageRecord | script.py:116-138 | an archive image's record carries its title, year, issue and page |
| Annotation.ArchiveImageTitle | script.py:123-133 | an archive image's FILETYPE is `.jpg`, and its TITLE is the stem, `__`, and the suffix of its KEYWORDS |
| Exporter.Row | script.py:164-165 | a record's values under the columns, in column order, one per column |
| Exporter.Table | script.py:159-165 | the header row above one row per record, one more row than records; TableRows and the Sheet lemmas state the layout |
| Exporter.FirstAbsent | script.py:164-165 | the first column a record lacks: None exactly when the record has every column |
| Exporter.MissingKey | script.py:163-165 | no missing key exactly when every record has every column |
| Exporter.MissingKeySpec | script.py:163-169 | a reported key is a column that some record lacks |
| Exporter.MissingKeyAt | script.py:163-165 | after complete records, the first missing column of the first incomplete record is the one reported |
| Exporter.FirstAbsentAt | script.py:164-165 | the first missing column of a record is the earliest one it lacks |
| Exporter.Worksheet.constructor | script.py:150-151 | a new worksheet is empty |
| Exporter.Worksheet.SetCell | script.py:160-165 | writing a cell sets that cell and changes no other |
| Exporter.WriteHeader | script.py:159-160 | after the first loop the sheet holds exactly the column names across row 1 |
| Exporter.WriteRow | script.py:164-165 | the inner loop stops at the first missing column and reports it; otherwise the sheet gains exactly the record's row |
| Exporter.WriteSheet | script.py:150-169 | the sheet holds exactly the header row and each record's row, or the run fails with the wrapped key error of the first missing column |
| Exporter.SaveMetadata | script.py:148-169 | the same, for the script's twelve columns |
| Exporter.TableRows | script.py:159-165 | the table's first row is the column names and row `i + 1` is record `i`'s row |
| Exporter.SheetHeader | script.py:159-160 | in a written sheet, cell (1, j + 1) holds column name j |
| Exporter.SheetRecords | script.py:163-165 | in a written sheet, cell (i + 2, j + 1) holds record i's value under column j |
| Exporter.SheetBounds | script.py:159-165 | a written sheet has no cell outside its rows and columns |
| Batch.Jpgs | script.py:199-200 | the `.jpg` names of the listing: each kept name ends in `.jpg`, and there are no more than names |
| Batch.JpgsKeeps | script.py:199-200 | every kept name comes from the listing, and every `.jpg` name of the listing is kept |
| Batch.JpgsAppend | script.py:199-200 | filtering keeps listing order: the `.jpg` names of two listings in a row are those of the first, then those of the second |
| Batch.Process | script.py:199-203 | the loop as a function: non-`.jpg` names skipped, each `.jpg` annotated, the first error ending it; ProcessSpec characterises it |
| Batch.HeadersAreRecordKeys | script.py:129-158 | the twelve columns are exactly the keys of a finished record |
| Batch.ProcessSpec | script.py:199-203 | the records are the annotations of the `.jpg` names in listing order, up to the first failing image, whose error is reported; without a failure every `.jpg` has its record |
| Batch.OnlyJpgsMatter | script.py:200 | names not ending in `.jpg` play no part |
| Batch.FailureStops | script.py:198-208 | once an image fails, nothing listed after it is processed |
| Batch.ProcessAppend | script.py:199-203 | without a failure, processing a longer listing carries on from where it was |
| Batch.ExportableRecords | script.py:154-165 | records with the twelve keys have every column, so the export finds no missing one |
| Batch.RecordsComplete | script.py:199-203 | every gathered record has the twelve keys |
| Batch.ProcessFrom | script.py:199-203 | one turn of the loop: a non-`.jpg` is skipped, a failure ends the loop, and a record is prepended to the rest |
| Batch.AnnotateAll | script.py:197-203 | the loop's records and failure are exactly Process over the listing |
| Batch.RunBatch | script.py:180-208 | the run folder is `output/Run N - <timestamp>` with N the next run number, and the workbook is `metadata.xlsx` inside it; a failing image ends the run with the wrapped error; otherwise the sheet shows the header and every record |

## Left out

- Loading the vision model and running inference (script.py:19-47) are left out. The caption and grounding tasks are functions in `Services`. A failure of either is wrapped as the inference error.
- A missing `results[task]` key after a successful inference is treated as a failure of the service.
- Configuring the chat model and its session (script.py:49-53, 104-105) are left out. The chat is a function in `Services`. The fixed instruction text sent before the labels belongs to that function and is described in its comment.
- Translation (script.py:69-76) is a function in `Services`. A failure is wrapped as `Translation error: `.
- Image decoding is left out. Opening an image is a function in `Services` that gives the width and height or one of the three failures.
- The file system is left out:
  - the move itself, which is a function in `Services` reporting failure;
  - `os.path.getsize`, which is a function in `Services`;
  - `os.scandir` and `is_dir`: the existing folder names are a parameter;
  - `os.listdir`: the listing is a parameter in the order it is returned;
  - `os.makedirs` and `wb.save`.
- The errors `Error getting next run number` and `Error creating output subfolder` are left out. They can only come from those file-system calls.
- Batch.RunBatch stops at the worksheet and does not model writing the file.
- The clock and `strftime('%d %B %Y - %I:%M %p').upper()` are left out. The timestamp is a parameter, and the run number reads back for any timestamp.
- `print` is left out.
- Exporter.Worksheet.SetCell always succeeds and stores the value as given. openpyxl cuts a string to 32,767 characters and raises `IllegalCharacterError` on control characters other than tab, newline and carriage return. A record holding one makes the real export fail after the images were moved; the model reports a sheet instead. The file name `A\x01_2021_iss1_Page1.jpg` is one: the pattern accepts it, and its FILENAME and SOURCE_TITLE carry the `\x01`. The error's text depends on the openpyxl version, so the check is not modelled.
- `\d` is taken as the ASCII digits only. Python's `re` on `str` also accepts other Unicode decimal digits.
- `str.strip` uses Python's whitespace set. `str.split(',')` is exact.
- Batch.AnnotateAll takes a ghost `step` standing for `process_image` on each listed name. Its precondition ties `step` to Annotate on the joined path, and RunBatch passes exactly that.
- FilenameParser.ParsesArchiveName states the concrete archive names through the general form `TITLE_YYYY_issN_PageM` followed by any non-newline character and `jpg`. There is no lemma for a particular literal name other than `randomfile.jpg`.
- `main.py` is not part of this model.
