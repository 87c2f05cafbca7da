# GearSwapUpdate in Dafny

GearSwapUpdate checks, and then repairs, the `bag = "..."` fields of a
Windower GearSwap gear file (`thf.lua`). Three inputs feed it:

- the game's item catalog (`items.lua`), read into a lower-cased
  name -> ID table and an ID -> name table;
- a findAll inventory dump (`player.lua`), read into an ID -> bags table
  holding one entry per line with a positive quantity under a section
  header;
- the gear file itself, read into `(name, bag)` references, with `"?"` for
  a reference that has no `bag` field.

`analyze.py` deduplicates the references on `(lower-cased name, bag)`. It
then files each unique reference as OK, WRONG BAG, MISSING or UNKNOWN.
`fix.py` builds a map from each mismatching name to the first bag that
actually holds the item. It backs the gear file up and rewrites the bag of
every occurrence of a mapped name that names another bag.

The model has seven modules:

- `Wrappers`: `Option`.
- `Text`: Python's whitespace set, ASCII digits and case folding, `strip`,
  the `--` comment test and decimal numerals.
- `Catalog` (`parse_items`): the catalog pattern as a hand-written matcher
  and the two tables as folds over the recognised lines.
- `Inventory` (`parse_findall`): line classification and the scanner that
  tracks the current bag.
- `GearConfig` (`parse_gearswap`): a gear-file line given as the segments
  the occurrence pattern divides it into, and the references read from
  them.
- `CrossReference`: the deduplication and categorisation in `analyze.py`'s
  `main`.
- `Corrector`: `build_corrections`, `apply_fixes`, and `fix.py`'s `main` as
  a method of the `GearFile` class. `GearFile` holds the file's lines and
  its `.bak` copy.

Each loop of the source is a method whose postcondition equals a function
of its input: a fold over a prefix of the input (`Corrections`, `Scan`,
`Unique`, `Tally`, `LineRefs`, the counts) or a sequence comprehension
(`FixAll`, `FixSegments`, `ScanAll`, `ClassifyAll`, `PerLine`). The lemmas
about what the source promises are proved about those functions.

## Model

| member | source | states |
|---|---|---|
| Text.DecimalRoundTrip | analyze.py:37 | `int()` of the decimal digits written for `n` is `n` |
| Text.CommentByLeftTrim | analyze.py:82-83 | a line is a comment exactly when it starts with `--` after its leading whitespace is removed; trailing whitespace never matters |
| Catalog.ScanEntry | analyze.py:32-40 | a catalog line `[<index>] = {id=<n>,en="<name>"...` with no bracket before it is read as that entry: the bracketed index is the ID (not `id=`) and the name is exactly as written |
| Catalog.SearchSkips | analyze.py:35 | `search` finds nothing at a position that does not hold `[`: the result is that of the next bracket |
| Catalog.SearchFinds | analyze.py:35 | `search` returns the match at the first bracket where the pattern matches, past any bracket-free lead-in |
| Catalog.SpacedEntryNotRead | analyze.py:32 | a line written `[<index>] = {id=<n>, en=...` (blank after the comma), with no other bracket, is not read: the pattern allows no whitespace there |
| Catalog.ScanLine | analyze.py:32-38 | a captured item name never contains a quote |
| Catalog.ParseItems | analyze.py:29-41 | the loop builds exactly the two tables folded over the recognised lines |
| Catalog.NameToIdLastWins | analyze.py:34-39 | a lower-cased name is a key exactly when some line names it; its ID is the one from the last such line |
| Catalog.IdToNameLastWins | analyze.py:34-40 | an ID is a key exactly when some line carries it; its name is the one from the last such line |
| Catalog.TablesInverse | analyze.py:39-40 | when no ID or lower-cased name repeats, each table inverts the other |
| Inventory.ClassifyHeader | analyze.py:51-58 | a line `["<bag>"] = {...` is read as a header for exactly that bag |
| Inventory.ClassifyItem | analyze.py:52-65 | an indented line `["<id>"] = <qty>` is read as that ID and quantity, and never as a header |
| Inventory.HeaderAndItemExclusive | analyze.py:51-52 | no line matches both the header and the item pattern |
| Inventory.ClassifyAll | analyze.py:51-58 | every bag name read from a header is quote-free |
| Inventory.Scan | analyze.py:61-67 | every listed ID has a non-empty list of bags |
| Inventory.ParseFindall | analyze.py:47-69 | the loop builds exactly the table the scanner computes over the classified lines |
| Inventory.CurrentIsLastHeader | analyze.py:56-59 | the current bag is always the bag of the most recent header line |
| Inventory.TableIsBagsOf | analyze.py:61-67 | an ID is in the table exactly when some line stocks it under a header; its list is one bag per such line, in file order, repeats kept |
| Inventory.ListedIffStocked | analyze.py:61-67 | a bag is listed for an ID exactly when some line with a positive quantity of it lies in that bag's section |
| Inventory.NoHeaderNoBags | analyze.py:50-61 | item lines before any header are ignored: with no header the table is empty |
| GearConfig.GearRefsBySegment | analyze.py:80-88 | `(name, bag)` is read exactly when a line that is not a comment holds an occurrence of `name` whose bag field is `bag`, or one with no bag field and `bag` is `"?"` |
| GearConfig.MatchRefs | analyze.py:85-88 | the `finditer` loop of one line yields its occurrences' references, left to right |
| GearConfig.ParseGearswap | analyze.py:75-89 | the loop yields the references of every non-comment line, in file order |
| GearConfig.GearRefsOrigin | analyze.py:80-88 | a reference is in the result exactly when some occurrence on a non-comment line yields it |
| GearConfig.LineOrigin | analyze.py:82-88 | a line contributes a reference exactly when it is not a comment and one of its occurrences yields it |
| GearConfig.GearRefsAppend | analyze.py:80-88 | the references of a file are those of its first part followed by those of the rest |
| GearConfig.CommentLineIgnored | analyze.py:82-84 | a comment line contributes nothing, whatever occurrences it holds |
| CrossReference.Dedup | analyze.py:106-113 | the `seen`-set loop computes the order-preserving deduplication on `(lower-cased name, bag)` |
| CrossReference.UniqueIsSubseq | analyze.py:107-113 | the unique references are a subsequence of the input |
| CrossReference.UniqueKeys | analyze.py:110-113 | deduplication keeps every key: input and output have the same key set |
| CrossReference.UniqueDistinct | analyze.py:110-113 | no two unique references share a key |
| CrossReference.UniqueKeepsFirst | analyze.py:109-113 | a reference is kept exactly when it is the first one with its key |
| CrossReference.Judge | analyze.py:123-134 | each reference gets exactly one verdict: UNKNOWN iff its lower-cased name is not in the catalog; MISSING iff known with no bags; OK iff its bag is one of them; WRONG BAG iff known, stocked, and in none of them, carrying the bags found |
| CrossReference.Categorise | analyze.py:117-134 | the loop fills the four lists as the fold over the unique references, and their lengths add up to the number of unique references |
| CrossReference.TallyTotal | analyze.py:166 | the total of the four lists is the number of unique references |
| CrossReference.TallyLists | analyze.py:122-134 | each list holds exactly the references of its verdict, with the ID and the bags found |
| CrossReference.Analyze | analyze.py:95-166 | the report is the categorisation of the deduplicated references read from the three files, and its total is their number |
| Corrector.Corrections | fix.py:19-35 | every entry is keyed by the lower-cased spelling it stores, for a known item that is stocked, and targets the first bag listed for it |
| Corrector.BuildCorrections | fix.py:19-35 | the loop computes exactly the fold over the references |
| Corrector.CorrectionKeys | fix.py:24-34 | a name has an entry exactly when one of its references is reported WRONG BAG by the analysis |
| Corrector.CorrectionLastWins | fix.py:32-34 | with several mismatching references to one lower-cased name, the last one's spelling is stored |
| Corrector.FixSegment | fix.py:60-71 | an occurrence changes exactly when its lower-cased name has an entry whose bag differs from its own; only the bag changes, to the entry's bag, and the result needs no further change |
| Corrector.FixLine | fix.py:53-74 | a comment line is kept as it was; every segment of a line keeps everything but a bag |
| Corrector.FixAll | fix.py:52-74 | the fixed file has as many lines as the original |
| Corrector.Substitute | fix.py:60-73 | the substitution over one line rewrites its occurrences and counts the rewritten ones |
| Corrector.ApplyFixes | fix.py:38-79 | the loop produces the fixed lines and the number of occurrences rewritten over the file |
| Corrector.CountIsDiffering | fix.py:60-73 | the count for a line is exactly the number of its segments that change |
| Corrector.FixKeepsComment | fix.py:55-73 | rewriting bags never makes a line a comment or stops it being one |
| Corrector.DumpBagsClean | analyze.py:51-67 | every bag in the table read from any dump is non-empty and quote-free |
| Corrector.CorrectionsSafe | fix.py:19-35 | every bag a correction writes is one the inventory lists, so non-empty and quote-free when the table is |
| Corrector.FixKeepsShape | fix.py:44-73 | rewriting with non-empty, quote-free bags leaves every occurrence in the shape the occurrence pattern reads |
| Corrector.FixIdempotent | fix.py:38-79 | with non-empty, quote-free target bags, the fixed file reads back as the fixed occurrences, and fixing it again with the same map changes nothing and counts zero |
| Corrector.FixSettles | fix.py:60-71 | after fixing with a clean inventory table, a reference that still names a stocked item in a bag that does not hold it reads `"?"` |
| Corrector.SecondRunCorrections | fix.py:19-35 | with a clean inventory table, a second run's map only has names with a `"?"` reference |
| Corrector.SecondRunNoChange | fix.py:19-79 | with a clean inventory table, a second run that rebuilds the map from the fixed file rewrites nothing and counts zero |
| Corrector.NameOnlyAlwaysCorrected | fix.py:24-34 | an occurrence with no bag field, on a line that is not a comment, for a known item stocked in bags none of which is called `"?"`, gets a correction, is left unchanged by the fix, and gets a correction again on the second run |
| Corrector.GearFile.Fix | fix.py:82-104 | with an empty map the file and the backup are untouched and nothing is reported; otherwise the backup holds the old lines, the file holds the fixed lines, and the count of rewritten occurrences is reported; a file in the shape the patterns read stays in it |
| Corrector.TwoOnOneLine | fix.py:66-70 | two wrong bags on one line change one line and count two |
| Corrector.CorrectBagMoved | fix.py:24-34 | an example file where a bagless reference makes the fix move a reference the analysis reports as OK: `(Foo, b)` with `Foo` in `a` and `b` is rewritten to `a`, count one |
| Corrector.NameOnlyNeverSettles | fix.py:26-34 | an example file of one bagless reference to a stocked item: it gets an entry, and fixing rewrites nothing |

## Left out

- File I/O is not modelled. The catalog and the dump are sequences of lines, the gear file is a sequence of lines already divided into segments, and splitting files into lines, UTF-8 decoding and writing the file back are left out.
- `sys.argv`, the hard-coded paths and all printing are not modelled. This includes the report layout and the sorted listing of corrections.
- The backup is modelled by its ordering only: the `GearFile.backup` field receives the old lines before the file is rewritten. `shutil.copy2` metadata is not modelled.
- GearConfig.ParseGearswap: the occurrence patterns of `parse_gearswap` (greedy `[^}]*`) and `apply_fixes` (lazy `[^}]*?`) are not executed as regular expressions. Each line is given as one division into segments that both functions read. The two patterns agree on a record with at most one `bag` field before its closing brace. For a record with several, the source's two patterns can pick different bag fields, and the model does not capture that difference.
- Corrector.FixIdempotent, Corrector.FixSettles, Corrector.SecondRunCorrections: the rewritten file is read back as the rewritten segments. That reading is what the source's patterns give only when every target bag is non-empty and quote-free (`Corrector.FixKeepsShape`), so these lemmas require it of the corrections or of the inventory table. Every table `parse_findall` builds meets it (`Corrector.DumpBagsClean`), and `Corrector.GearFile.Fix` keeps the file in that shape. A hand-built table with a quote in a bag name is outside these lemmas: re-reading `bag = "x"y"` would find the bag `x`.
- `Text.Lower` folds ASCII letters only; Python's `str.lower` maps all of Unicode.
- `\d` and `int()` are modelled on ASCII digits only; Python's `\d` also matches other Unicode decimal digits.
- The `id_to_name` table of `parse_items` is computed but used by neither script, so nothing beyond its own lemmas is proved about it.

Where the documentation and the code differ, the model follows the code:

- The docstring of `build_corrections` promises `{item_name_lower: correct_bag}`. The code stores `(name, bag)` pairs, and the model keeps those pairs (`Correction`).
- The docstring of `apply_fixes`, and the message printed by `main`, speak of lines changed. The code counts rewritten occurrences. `Corrector.TwoOnOneLine` shows a file where the two differ (one line, count two).
- A catalog line written with a blank after `{id=<n>,` is not read by the pattern (`Catalog.SpacedEntryNotRead`).
- A second run of the fixer need not find nothing to do. A bagless reference to a stocked item keeps producing a correction that rewrites nothing (`Corrector.NameOnlyAlwaysCorrected`, with the example file `Corrector.NameOnlyNeverSettles`). What a second run does not do is change the file: the map it rebuilds from the fixed file rewrites no occurrence (`Corrector.SecondRunNoChange`).
- The analysis reports each unique reference on its own, but `build_corrections` keys its map on the lower-cased name alone. A bagless reference to an item held in several bags therefore sends every other reference to that name into the first bag, including one the analysis reports as OK (`Corrector.CorrectBagMoved`: `(Foo, b)` is OK, yet the fix rewrites `b` to `a` and counts one).
