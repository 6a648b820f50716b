# BIutils core, modelled in Dafny

This project models the core of BIutils, a small Python toolbox for
bioinformatics scripts. It covers seven pieces:

- **Text** (`BItext`): the visible length of a string that may hold
  terminal colour escapes, the colour helpers (`red`, `RED`, …) and
  `isColor`.
- **Filter** (`BItext`): the streaming highlighter. A `Matcher` watches one
  target string and a `MultiMatcher` dispatches characters among several.
  Characters nobody matches are written through unchanged. A target fed
  to a fresh matcher is written in its colour (`Filter.WholeTarget`). A target
  seen in full in a longer input is not always coloured. An earlier-declared
  matcher may take its characters first (`FilterExamples.CatBeforeCatalog`).
  After a partial match is refused, only the current character is rescanned
  (`FilterExamples.NoFallback`).
- **Db** (`BIdb`): `dget`, the column-spec parser of `DBField`, the SQL text
  that `DBField` and `DBTable` produce, and the table registry of `Database`.
- **Experiments** (`BIexperiment`): an experiment's conditions, samples and
  contrasts, filled either call by call or from rows of a file.
- **Colors** (`BIcolors`): the `Palette` that builds a cube of web colours
  and hands them out in a scrambled order.
- **Files** (`BIfile`, plus `missingOrStale` from `BImisc`): files whose
  path is resolved once and cached, a `Filer` registry of files by tag, and
  staleness against source files.
- **Ansi** (`BIansi`): the `esc` builder and the cursor, erase and mode
  helpers, checked against the control functions of ECMA-48.

Python values become Dafny values:

- Exceptions the code can raise are modelled as `Err` results carrying the
  Python exception's name. This covers `IndexError` on `s[0]` of an empty
  string, `KeyError` on an unknown colour, `NameError` from an undefined
  module and `OSError` from a missing file.
- Standard output and standard error are `Runtime.Stream` objects. Each
  write appends to the stream's `text`.
- Objects whose fields the code updates are Dafny classes with `modifies`
  frames: `Matcher`, `MultiMatcher`, `DBField`, `DBTable`, `Database`,
  `Experiment`, `Palette`, `File` and `Filer`.
- Each class method is proved against a value-level function. The
  properties are proved about that function as lemmas:
  - the highlighter: `Filter.Advance`, `Filter.FindFrom`, `Filter.Feed`;
  - the experiment: `Experiments.WithCondition` and the functions after it;
  - the other classes likewise.

Files, one module each:

- `runtime.dfy`
- `strings.dfy`
- `text.dfy`
- `filter.dfy` (also holds module `FilterExamples`)
- `highlight.dfy`
- `db.dfy`
- `experiment.dfy`
- `colors.dfy`
- `files.dfy`
- `ansi.dfy`

Where the code behaves in a way a reader might not expect, the model follows the code:

- An empty target is not rejected when a `Matcher` is built. Its visible
  length is 0, and its first `match` raises `IndexError`.
- An unknown colour raises `KeyError`, and an empty colour token raises
  `IndexError` at `color[0]`. The code has no dedicated error for a bad
  colour, and `isColor` only tests the colour name.
- When the idle dispatcher finds a one-character target, it makes that
  matcher active even though it has already completed. The next character
  is offered to that matcher first (`FilterExamples.SingleStaysActive`).
- After a match completes, the line marked `# Reset` (BItext.py:174)
  compares `_status` with `NOMATCH` instead of assigning it, so the status
  stays `DONE`. The model keeps that status. Only `active` is cleared,
  which is all the code clears.
- A partial match still held back at the end of the input is not flushed.
  `Filter.Held` names exactly what stays unwritten.
- `str(field)` never prints `NOT NULL` (see Findings). The model prints
  what the code prints; `Db.IntendedFieldSql` is the text with the clause.

## Model

| member | source | states |
|---|---|---|
| Strings.SplitJoin | BIdb.py:38 | splitting a join of separator-free pieces on the same separator gives the pieces back |
| Strings.JoinSplit | BIexperiment.py:58 | joining what `split` returns with the separator rebuilds the string exactly |
| Strings.Strip | BIexperiment.py:58 | `strip` returns a contiguous part of the input that neither starts nor ends with white space, and what it drops on each side is all white space |
| Strings.IntToStringValue | BIansi.py:16 | `str` of an integer is non-empty and reads back as the same integer, sign included |
| Text.Len | BItext.py:12-27 | the loop counts exactly the characters outside escape runs, where a run goes from ESC through the next `m` |
| Text.Colorize | BItext.py:29-31 | a coloured string starts with the escape introducer and ends with the reset sequence; with a one-digit bold flag and a two-digit colour it is exactly 11 characters longer than its text |
| Text.ColorizeShowsText | BItext.py:29-31 | for text without ESC, the visible part of the coloured string is the text itself |
| Text.Paint | BItext.py:33-79 | every colour helper adds 11 characters, and its visible length is the length of its escape-free argument |
| Text.Code | BItext.py:33-79 | every helper uses an SGR foreground colour code between 30 and 37 |
| Text.ColorTablesAgree | BItext.py:81-89 | the helper table has a key for exactly the eight colour names, and the i-th name's helpers use code 30 + i |
| Text.IsColor | BItext.py:91-97 | `isColor` skips every leading `+` and answers whether the rest is a colour name; a string of only pluses raises IndexError |
| Text.ParseStyle | BItext.py:118-127 | building a matcher raises IndexError exactly on an empty colour, succeeds exactly when the colour without one leading `+` is a name, and then records boldness and the name's code |
| Text.ParseStyleAcceptsColors | BItext.py:91-97 | every colour a matcher accepts is one `isColor` approves |
| Text.IsColorAcceptsMore | BItext.py:91-97 | the converse fails: `isColor` approves `++red`, which a matcher rejects with KeyError |
| Filter.Advance | BItext.py:138-153 | one `match` call raises exactly when the cursor is past the target, keeps the configuration and accepts exactly when the character is the next one of the target |
| Filter.AdvanceConsistent | BItext.py:138-153 | a `match` call that returns keeps the cursor inside a target of positive visible length |
| Filter.AdvanceRaisesOnlyWithoutVisibleText | BItext.py:138-141 | on a consistent matcher, `match` raises only when the target has no visible character |
| Filter.AdvanceStatus | BItext.py:141-152 | the status is DONE exactly when the last character is accepted, and then the styled target is written; STORING when an earlier character is accepted; NOMATCH exactly on rejection |
| Filter.FindFrom | BItext.py:162-167 | the scan keeps the number of matchers, and a matcher it returns lies in the scanned range |
| Filter.FindIdle | BItext.py:162-167 | on idle matchers the scan cannot raise and keeps the configuration; only the matcher found may leave its cursor off 0, and only a one-character target writes, its styled target |
| Filter.FindIdleFirst | BItext.py:162-167 | on idle matchers the scan returns the first matcher whose target starts with the character, and returns none only if no target does |
| Filter.FindResult | BItext.py:162-167 | a scan from idle preserves the invariant, writes only matched targets, and what it writes plus what it holds is the character |
| Filter.Feed | BItext.py:169-189 | one `MultiMatcher.match` keeps the number of matchers and the active index in range |
| Filter.FeedAll | BItext.py:169-189 | feeding a string keeps the number of matchers and the active index in range |
| Filter.FeedAllSplit | BItext.py:169-189 | chunking does not matter: feeding `a + b` is feeding `a` then `b`, with the two outputs concatenated |
| Filter.FeedActiveAccepts | BItext.py:170-176 | when the active matcher takes the character, the invariant holds and the text held so far plus the character equals what is written plus what is still held |
| Filter.FeedActiveRejects | BItext.py:177-183 | when the active matcher refuses, its held prefix is written, the character is rescanned, and the same transcript equation holds |
| Filter.RejectFlushes | BItext.py:148-153 | a refusing matcher writes exactly its held prefix, as plain text, and goes back to idle |
| Filter.FeedStep | BItext.py:169-189 | every call preserves the invariant that only the active matcher holds a partial match; held text plus input equals output plus held text; only targets are coloured |
| Filter.FeedAllTranscript | BItext.py:169-189 | the transcript equation and the invariant hold for a whole input: no character is lost, duplicated or reordered |
| Filter.FromStart | BItext.py:159-189 | from fresh matchers, the input is what is written followed by the prefix still held; at most the active matcher holds a partial match; only targets are coloured |
| Filter.NothingToHighlight | BItext.py:169-189 | when no target starts with any input character, the output is the input unchanged and the dispatcher stays idle |
| Filter.StyledOccurs | BItext.py:141-147 | every coloured block written is a target that occurs in the plain-text reading of the output |
| Filter.NoOccurrencePassesThrough | BItext.py:159-189 | when no target occurs anywhere in the input, nothing is coloured and the output followed by the held prefix is the input |
| Filter.WholeTarget | BItext.py:118-189 | fed exactly its target, a fresh matcher in the dispatcher writes one coloured block, the decorated target, whose visible length is the target's length |
| Filter.WholeTargetRest | BItext.py:138-176 | an active matcher holding the first i characters, fed the rest of its target, writes the coloured target and leaves the dispatcher with none active |
| FilterExamples.CatBeforeCatalog | BItext.py:162-167 | targets `cat` then `catalog` on input `catalog` give the coloured `cat` followed by plain `alog` |
| FilterExamples.PairTwice | BItext.py:138-147 | target `aa` on input `aaaa` gives two coloured copies of `aa` and nothing else |
| FilterExamples.PartialFlushed | BItext.py:148-153 | target `abc` on input `abx` writes `abx` unchanged |
| FilterExamples.NoFallback | BItext.py:148-153 | target `aab` on input `aaab` misses the match: the restart after a refusal does not re-examine the held prefix |
| FilterExamples.SingleStaysActive | BItext.py:169-176 | a one-character target found while idle is made active although complete, and is cleared only after the next character |
| Highlight.Matcher.Init | BItext.py:125-130 | the object part of `__init__`: the matcher holds the given target, length and style, with cursor 0 and status NOMATCH |
| Highlight.Matcher.Create | BItext.py:118-130 | `Matcher(string, color)` raises exactly what parsing the colour raises (IndexError on an empty colour, KeyError on an unknown name); otherwise the matcher holds the target, its visible length and the colour's style, with cursor 0 and status NOMATCH |
| Highlight.Matcher.Match | BItext.py:132-153 | the method's result, new state and written text are exactly those of `Filter.Advance`, and it keeps the matcher's invariant |
| Highlight.MultiMatcher.constructor | BItext.py:159-160 | a new dispatcher holds the given matchers with no active one |
| Highlight.MultiMatcher.FindMatcher | BItext.py:162-167 | the loop returns the matcher `Filter.FindFrom` finds, leaves every matcher in the state it computes, and writes what it writes |
| Highlight.MultiMatcher.Offer | BItext.py:164-165 | offering the character to one matcher changes that matcher alone, as `Filter.Advance` says |
| Highlight.MultiMatcher.Rescan | BItext.py:178-189 | a fresh scan either hands the character to a new active matcher or writes it through, as `Filter.Feed` does |
| Highlight.MultiMatcher.Match | BItext.py:169-189 | one call moves the dispatcher's state and output exactly as `Filter.Feed` does, or raises the same error |
| Db.Dget | BIdb.py:16-20 | the lookup gives a value exactly when the key is present, and then the stored value |
| Db.Apply | BIdb.py:42-65 | one spec item raises IndexError exactly when it is empty |
| Db.ApplyMeaning | BIdb.py:42-65 | a non-empty item sets the type its letter names, turns on the flag it names, or sets the default to the rest of the item after `D`; nothing else changes |
| Db.ParseMeaning | BIdb.py:37-65 | after a spec, the type is the last type named and the default the last default given; each flag is on when some item names it |
| Db.ParseStopsAtEmpty | BIdb.py:41-65 | an empty item stops parsing: only the items before it take effect |
| Db.DBField.Init | BIdb.py:22-34 | the field object before `parseSpec`: it holds its name and spec with every attribute at its class default |
| Db.DBField.Create | BIdb.py:32-35 | `DBField(name, spec)` raises IndexError exactly when the spec has an empty item; otherwise the field holds its name and spec and the attributes `ParseMeaning` describes |
| Db.DBField.ParseSpec | BIdb.py:37-65 | the method leaves the attributes `ParseMeaning` describes, and fails with IndexError exactly when the spec has an empty item |
| Db.FieldSql | BIdb.py:67-72 | the text `str(field)` prints is the intended column definition without its `NOT NULL` clause, and with the flag set appending that clause gives the intended text |
| Db.DBField.Str | BIdb.py:67-72 | read back from the printed text, primary key and auto-increment are the field's own flags and not-null is always off |
| Db.PrintedFlags | BIdb.py:67-72 | for a declared type or none, the flags read back from the printed text are primary key, auto-increment and never not-null |
| Db.NotNullLost | BIdb.py:37-72 | for any parsed spec, the printed text loses the not-null flag: `N` in the spec makes no difference to it |
| Db.FieldSqlFlags | BIdb.py:67-72 | all three flags can be read back from the intended column definition when the part before them ends unlike a flag |
| Db.FieldFlagsRoundTrip | BIdb.py:37-72 | for any parsed spec, the primary-key, auto-increment and not-null flags can be read back from the intended column definition |
| Db.HeadIsNotAFlag | BIdb.py:67-72 | the name, type and default part of the column text never ends like a flag |
| Db.IndexSql | BIdb.py:74-75 | the index statement is `CREATE INDEX`, then table `_` column, then ` on `, then the table with the column in parentheses, closed by `);` |
| Db.IndexSqlInjective | BIdb.py:74-75 | on one table, different columns get different index statements |
| Db.DBField.Idx | BIdb.py:74-75 | `idx(tname)` is `Db.IndexSql` of the field's name; its layout is stated by `Db.IndexSql` and its injectivity by `Db.IndexSqlInjective` |
| Db.ColumnTexts | BIdb.py:86 | one column text per field, in field order, each the field's `str` |
| Db.CreateSql | BIdb.py:85-88 | the create statement is `CREATE TABLE`, the table name, then the column list in parentheses, closed by `;` |
| Db.ColumnListHoldsTexts | BIdb.py:86 | the column list holds every column text once, in order, each at the offset of the texts and separators before it and followed by `, ` unless last |
| Db.DropSql | BIdb.py:90-91 | the drop statement is `DROP TABLE IF EXISTS` with the table name and `;` |
| Db.EmptySql | BIdb.py:100-101 | the empty statement is `DELETE FROM` with the table name and `;` |
| Db.DropSqlInjective | BIdb.py:90-91 | different tables get different drop statements |
| Db.EmptySqlInjective | BIdb.py:100-101 | different tables get different empty statements |
| Db.DropIsNotEmpty | BIdb.py:90-101 | a drop statement is never an empty statement, whatever the tables |
| Db.Indexed | BIdb.py:93-98 | the indexed columns are exactly those marked for an index, in table order |
| Db.IndexesSql | BIdb.py:93-98 | one index statement per indexed column, in table order |
| Db.IndexesDistinct | BIdb.py:93-98 | with distinct column names, the index statements of a table are pairwise distinct |
| Db.DBTable.Init | BIdb.py:81-82 | the table object with fields already built: it holds its name and those fields |
| Db.DBTable.Create | BIdb.py:81-83 | `DBTable(name, pairs...)` raises IndexError exactly when some spec has an empty item; otherwise it holds one new field per pair, in order, each parsed from its spec |
| Db.DBTable.Indexes | BIdb.py:93-98 | the loop builds the list of `IndexesSql` |
| Db.DBTable.CreateStatement | BIdb.py:85-88 | `create()` is `Db.CreateSql` of the table's columns; stated by `Db.CreateSql` and `Db.ColumnListHoldsTexts` |
| Db.DBTable.Drop | BIdb.py:90-91 | `drop()` is `Db.DropSql` of the name; stated by `Db.DropSql`, `Db.DropSqlInjective` and `Db.DropIsNotEmpty` |
| Db.DBTable.Empty | BIdb.py:100-101 | `empty()` is `Db.EmptySql` of the name; stated by `Db.EmptySql`, `Db.EmptySqlInjective` and `Db.DropIsNotEmpty` |
| Db.ExampleTable | BIdb.py:256-258 | the sample table gives the create statement, without `NOT NULL` on its second column, and the single index statement of that column |
| Db.ExampleColumns | BIdb.py:256-258 | the sample specs `T` and `C5,X,N,D'abc'` give the column texts `test TEXT` and `test2 CHAR(5) DEFAULT ''abc''`; the intended second text ends in ` NOT NULL` |
| Db.RegistryMeaning | BIdb.py:111-116 | the registry has a key for exactly the table names, and each name maps to the last table with that name |
| Db.Registry | BIdb.py:113-115 | the loop of `Database.__init__` over the tables, a later name replacing an earlier; stated by `Db.RegistryMeaning` and `Db.Database.constructor` |
| Db.Database.constructor | BIdb.py:111-115 | a new database registers its tables by name |
| Db.Database.AddTable | BIdb.py:136-137 | adding a table registers it under its name, replacing any earlier table of that name |
| Db.Database.GetTable | BIdb.py:139-143 | looking a table up is `dget` on the registry |
| Experiments.EmptyConsistent | BIexperiment.py:24-29 | a new experiment is consistent: no conditions, samples or contrasts |
| Experiments.Experiment.constructor | BIexperiment.py:24-29 | a new experiment is empty and satisfies the invariant |
| Experiments.WarningsNone | BIexperiment.py:31-41 | no warning is written exactly when no new sample repeats an earlier or known sample |
| Experiments.WithCondition | BIexperiment.py:31-41 | the state `addCondition` leaves: samples and their condition index appended, the name appended, its sample list stored; stated by `Experiments.WithConditionConsistent` and `Experiments.Experiment.AddCondition` |
| Experiments.WithConditionConsistent | BIexperiment.py:31-41 | adding a condition preserves the invariant: samples and their condition indexes stay parallel, each index is in range, each condition maps to its latest sample list |
| Experiments.Experiment.AddCondition | BIexperiment.py:31-41 | the method applies `WithCondition`, writes the duplicate-sample warnings and keeps the invariant |
| Experiments.WithContrast | BIexperiment.py:43-51 | a contrast is appended exactly when both conditions are known; otherwise nothing changes |
| Experiments.WithContrastConsistent | BIexperiment.py:43-51 | adding a contrast preserves the invariant |
| Experiments.Experiment.AddContrast | BIexperiment.py:43-51 | the method returns true exactly when both conditions are known, and writes the error message otherwise |
| Experiments.LabelsBySample | BIexperiment.py:72-78 | with distinct condition names, there is one label per sample, and it is the name of the condition that sample was added under |
| Experiments.RepeatedConditionLabels | BIexperiment.py:72-78 | with a condition added twice there are more labels than samples: 3 samples, 4 labels |
| Experiments.Labels | BIexperiment.py:72-78 | `sampleLabels()`: each condition's name once per sample it maps to, in condition order; stated by `Experiments.LabelsBySample`, `Experiments.RepeatedConditionLabels` and `Experiments.Experiment.SampleLabels` |
| Experiments.Experiment.SampleLabels | BIexperiment.py:72-78 | the loop returns `Labels` of the conditions |
| Experiments.StripAll | BIexperiment.py:58 | every sample name is stripped |
| Experiments.AfterConditionsConsistent | BIexperiment.py:53-59 | reading condition rows preserves the invariant and leaves the contrasts alone |
| Experiments.Experiment.InitConditionsFromRows | BIexperiment.py:53-59 | the loop adds the rows up to the first short row, writing their warnings; it fails with IndexError exactly when a short row exists |
| Experiments.AfterContrastsMeaning | BIexperiment.py:61-70 | reading contrast rows appends, in order, one contrast per row that has two fields and two known conditions; nothing else changes |
| Experiments.Experiment.InitContrastsFromRows | BIexperiment.py:61-70 | the loop applies `AfterContrasts` and writes the error lines of `ContrastsLog` |
| Colors.Levels | BIcolors.py:20-26 | only sizes 27 and 64 have intensity levels, and the level count cubed is the size |
| Colors.LevelsWellFormed | BIcolors.py:20-23 | the levels are distinct two-digit strings, starting with `00` |
| Colors.Cube | BIcolors.py:27-31 | the triple loop yields as many colours as levels cubed |
| Colors.CubeEntry | BIcolors.py:27-31 | entry `(r*n+g)*n+b` of the cube is the colour with levels r, g and b |
| Colors.CubeDistinct | BIcolors.py:27-31 | the cube holds no colour twice |
| Colors.Reordered | BIcolors.py:32-36 | colour i is the cube entry at position `(i*step) % size` |
| Colors.Palette.WebColors | BIcolors.py:27-31 | the triple loop builds exactly `Cube` of the levels |
| Colors.Palette.Reorder | BIcolors.py:32-36 | the stepping loop builds exactly `Reordered` of the cube |
| Colors.PositionsDistinct | BIcolors.py:32-36 | a step coprime to the size visits each position once |
| Colors.ReorderedIsPermutation | BIcolors.py:18-36 | with a coprime step, the palette is a permutation of the cube that starts with black |
| Colors.DefaultStepCoprime | BIcolors.py:18 | the default step 7 is coprime to both sizes |
| Colors.SharedFactorRepeats | BIcolors.py:32-36 | a step sharing a factor with the size repeats colours: step 3 on 27 repeats the first colour at index 9 |
| Colors.Palette.constructor | BIcolors.py:18-36 | a bad size writes the error and leaves no colours; otherwise the colours are the reordered cube; the cycle length stays 27 and the pointer 0 |
| Colors.Palette.NextColor | BIcolors.py:38-42 | returns the colour at the pointer and advances it modulo 27, or raises IndexError when the pointer is past the colours |
| Colors.DrawsCycle | BIcolors.py:38-42 | the k-th colour drawn is the one at `(start + k) % period` |
| Colors.ServesOnlyFirst27 | BIcolors.py:38-42 | a 64-colour palette serves only its first 27 colours, and draw 27 is colour 0 again |
| Colors.ServesAll | BIcolors.py:38-42 | cycling with the palette's own length serves every colour in order |
| Colors.Palette.NextColorCycling | BIcolors.py:38-42 | the corrected draw cycles through the whole palette |
| Files.PathJoinSplits | BIfile.py:27-34 | the joined path's last component is the name and the part before it is the directory |
| Files.CacheWins | BIfile.py:27-34 | once a non-empty path is cached, later calls return it whatever the name or directory now say |
| Files.ResolveStable | BIfile.py:27-34 | resolving again from the cached path gives the same path |
| Files.File.constructor | BIfile.py:19-22 | a new file holds its name, directory and sources with nothing cached |
| Files.File.Pathname | BIfile.py:27-34 | the method returns the resolved path, caches it, and changes nothing else |
| Files.MissingOrStale | BImisc.py:20-27 | a missing target is stale; a missing reference raises OSError; otherwise the target is stale exactly when it is older than the reference |
| Files.ScanMeaning | BIfile.py:43-52 | the loop over sources reports staleness exactly when some source makes the target stale |
| Files.StaleByMeaning | BIfile.py:43-52 | with all files present, the target is stale exactly when it has no sources or is older than one of them |
| Files.MissingIsStale | BIfile.py:43-52 | a missing target is stale whatever its sources |
| Files.File.Stale | BIfile.py:43-52 | as written: with no sources the answer is stale; with any source the call raises NameError |
| Files.File.StaleUnder | BIfile.py:43-52 | the corrected check resolves the target's and every source's path and returns `StaleBy` of them |
| Files.StaleDisagrees | BIfile.py:43-52 | for a missing target with one source, the code raises where the intended check answers stale |
| Files.Filer.constructor | BIfile.py:58-60 | a new filer has no files and holds its directory |
| Files.Filer.AddFile | BIfile.py:62-66 | a new file is registered under its tag, in the given directory or else the filer's |
| Files.Filer.File | BIfile.py:68-73 | the lookup gives a file exactly when the tag is registered |
| Files.Filer.Pathname | BIfile.py:75-81 | the path of a registered tag is its file's resolved path, which becomes cached; an unknown tag gives none |
| Ansi.Esc | BIansi.py:15-16 | every helper's output starts with the introducer and ends with its final code |
| Ansi.EscParses | BIansi.py:15-16 | a sequence built by `esc` from arguments without `;` reads back into those arguments and that code |
| Ansi.Home | BIansi.py:24-25 | `home()`: `esc("H")`; its exact text is stated by `Ansi.CursorStrings`, its read-back by `Ansi.PositionHelpersParse` |
| Ansi.Goto | BIansi.py:27-28 | `goto(line, col)`: `H` with both numbers; stated by `Ansi.CursorStrings`, `Ansi.CursorHelpersFollowStandard` (CUP) and `Ansi.PositionHelpersParse` |
| Ansi.Up | BIansi.py:30-31 | `up(lines)`: final `A`; stated by `Ansi.CursorHelpersFollowStandard` (CUU) and `Ansi.CursorMovesParse` |
| Ansi.Down | BIansi.py:33-34 | `down(lines)`: final `B`; stated by `Ansi.CursorHelpersFollowStandard` (CUD) and `Ansi.CursorMovesParse` |
| Ansi.Left | BIansi.py:36-37 | `left(cols)` as written: final `C`; stated by `Ansi.LeftRightSwapped` (it is CUF) and `Ansi.CursorMovesParse` |
| Ansi.Right | BIansi.py:39-40 | `right(cols)` as written: final `D`; stated by `Ansi.LeftRightSwapped` (it is CUB) and `Ansi.CursorMovesParse` |
| Ansi.BegOfNextLine | BIansi.py:42-43 | `begOfNextLine(lines)`: final `E`; stated by `Ansi.CursorHelpersFollowStandard` (CNL) and `Ansi.CursorMovesParse` |
| Ansi.EndOfPreviousLine | BIansi.py:45-46 | `endOfPreviousLine(lines)`: final `F`; stated by `Ansi.CursorHelpersFollowStandard` (CPL) and `Ansi.CursorMovesParse` |
| Ansi.GoToColumn | BIansi.py:48-49 | `goToColumn(col)`: final `G`; stated by `Ansi.CursorHelpersFollowStandard` (CHA) and `Ansi.CursorMovesParse` |
| Ansi.ReportPosition | BIansi.py:51-52 | `reportPosition(line, col)`: `R` with both numbers; stated by `Ansi.CursorHelpersFollowStandard` (CPR) and `Ansi.PositionHelpersParse` |
| Ansi.SavePosition | BIansi.py:54-55 | `savePosition()`: `esc("s")`; stated by `Ansi.CursorStrings` and `Ansi.PositionHelpersParse` |
| Ansi.RestorePosition | BIansi.py:57-58 | `restorePosition()`: `esc("u")`; stated by `Ansi.CursorStrings` and `Ansi.PositionHelpersParse` |
| Ansi.ClearScreen | BIansi.py:62-63 | `clearScreen()`: `J` with 2; stated by `Ansi.EraseStrings` and `Ansi.EraseAndModeHelpersFollowStandard` (ED) |
| Ansi.ClearToEOS | BIansi.py:65-66 | `clearToEOS()`: `J` with 0; stated by `Ansi.EraseStrings` and `Ansi.EraseAndModeHelpersFollowStandard` (ED) |
| Ansi.ClearFromBOS | BIansi.py:68-69 | `clearFromBOS()`: `J` with 1; stated by `Ansi.EraseStrings` and `Ansi.EraseAndModeHelpersFollowStandard` (ED) |
| Ansi.ClearLine | BIansi.py:71-72 | `clearLine()`: `K` with no parameter; stated by `Ansi.EraseStrings` and `Ansi.EraseAndModeHelpersFollowStandard` (EL) |
| Ansi.ClearToEOL | BIansi.py:74-75 | `clearToEOL()`: `K` with 0; stated by `Ansi.EraseStrings` and `Ansi.EraseAndModeHelpersFollowStandard` (EL) |
| Ansi.ClearFromBOL | BIansi.py:77-78 | `clearFromBOL()`: `K` with 1; stated by `Ansi.EraseStrings` and `Ansi.EraseAndModeHelpersFollowStandard` (EL) |
| Ansi.SetMode | BIansi.py:82-83 | `setMode(mode)`: `h` with `=` and the mode; stated by `Ansi.ModeStrings` and `Ansi.EraseAndModeHelpersFollowStandard` (SM) |
| Ansi.CursorOff | BIansi.py:85-86 | `cursorOff()`: `l` with `?25`; stated by `Ansi.ModeStrings` and `Ansi.EraseAndModeHelpersFollowStandard` (RM) |
| Ansi.CursorOn | BIansi.py:88-89 | `cursorOn()`: `h` with `?25`; stated by `Ansi.ModeStrings` and `Ansi.EraseAndModeHelpersFollowStandard` (SM) |
| Ansi.SaveScreen | BIansi.py:91-92 | `saveScreen()`: `h` with `?47`; stated by `Ansi.ModeStrings` and `Ansi.EraseAndModeHelpersFollowStandard` (SM) |
| Ansi.RestoreScreen | BIansi.py:94-95 | `restoreScreen()`: `l` with `?47`; stated by `Ansi.ModeStrings` and `Ansi.EraseAndModeHelpersFollowStandard` (RM) |
| Ansi.CursorStrings | BIansi.py:24-58 | `home`, `goto`, `savePosition` and `restorePosition` print the exact expected sequences |
| Ansi.EraseStrings | BIansi.py:62-78 | the erase helpers print the intended `J` and `K` sequences, with parameters 2, 0, 1 or none |
| Ansi.ModeStrings | BIansi.py:82-95 | the mode helpers print `=mode h` and the `?25` and `?47` set and reset sequences |
| Ansi.CursorHelpersFollowStandard | BIansi.py:27-52 | up, down, next line, previous line, column, position and report are the ECMA-48 control sequences CUU, CUD, CNL, CPL, CHA, CUP and CPR |
| Ansi.EraseAndModeHelpersFollowStandard | BIansi.py:62-95 | the erase helpers are ED and EL with parameters 2, 0, 1; the mode helpers are SM and RM |
| Ansi.LeftRightSwapped | BIansi.py:36-40 | as written, `left` emits CUF (cursor right) and `right` emits CUB (cursor left) |
| Ansi.CursorLeft | BIansi.py:36-37 | the corrected `left` is CUB, final byte `D` |
| Ansi.CursorRight | BIansi.py:39-40 | the corrected `right` is CUF, final byte `C` |
| Ansi.CursorMovesParse | BIansi.py:30-49 | each one-count helper reads back as its count and its final byte A to G |
| Ansi.PositionHelpersParse | BIansi.py:24-58 | `goto` and `reportPosition` read back as two numbers with H and R; `home`, `savePosition` and `restorePosition` as no numbers with H, s and u |

## Left out

- `terminal_size` in `BIansi` is not modelled, because it runs a shell command.
- `_show` in `BItext` is not modelled; it is a demonstration that only prints.
- Text output is reduced to its characters. What actually reaches the terminal, and when, is not modelled.
- `Database` connections and queries are not modelled: the cursor, execute, commit, create and `*ToDict`/`get*` helpers. They need a database driver.
- The `SQLiteDatabase` and `MySQLDatabase` subclasses and `initDB` are not modelled, and neither are the keyword-argument settings, for the same reason.
- `Experiment.dump` is not modelled; it only prints.
- Reading a tab-separated file is not modelled. The rows it yields are given to the model as a sequence of rows (`InitConditionsFromRows`, `InitContrastsFromRows`), and the file name appears only in the error text.
- `File.nlines` is not modelled, because it runs `wc` in a shell.
- `File.__str__` is not modelled; it only formats strings.
- Modification times are taken from a `FileSystem` value instead of the operating system. Its one map of modification times stands both for `os.path.isfile(target)` (BImisc.py:22) and for the paths `os.path.getmtime` can read (BImisc.py:25). So a target that exists but is not a regular file, such as a directory, is compared by time in the model, while the code calls it stale.
- `BIbs`, `BImenu`, `BIcsv`, `Plots` and the rest of `BImisc` are not part of this model.
- Highlight.MultiMatcher.constructor: requires the matchers to be distinct objects, so one matcher listed twice is not modelled.
- Highlight.MultiMatcher.FindMatcher: does not describe the matchers' states after `match` raises midway, only the error returned.
- Filter.FeedAllTranscript: proved only for targets that are non-empty and free of ESC, whose visible length is their length. Targets with escapes are not covered by the transcript equation.
- Filter.FromStart: proved under the same condition on targets as `Filter.FeedAllTranscript`.
- Experiments.LabelsBySample: requires distinct condition names. With a repeated name, `sampleLabels` writes more labels than there are samples, which `Experiments.RepeatedConditionLabels` exhibits.
- Colors.Palette.NextColor: depends on `size` being 27 and does not model a `size` passed to the constructor, because the code never stores it.
- Integers are unbounded, as in Python, so no width or wrap-around is modelled.
- Strings follow Python 2 byte-string semantics, which the repository is written for: `Strings.Strip` removes ASCII white space only, so the Unicode white space that Python 3's `str.strip` also removes is not modelled.
- Highlight.Matcher.Init: stores a given length and style; the colour lookup and `len(string)` of BItext.py:119-128 are in `Highlight.Matcher.Create`, which models the whole `__init__`.
- Db.DBField.Init: builds the field before `parseSpec`; BIdb.py:35 runs `parseSpec` inside `__init__`, which `Db.DBField.Create` models.
- Db.DBTable.Init: takes fields already built; BIdb.py:83 builds them from pairs, which `Db.DBTable.Create` models.
- Db.Database.constructor: models the registry that both subclasses share (BIdb.py:111-115). `self.init()` at BIdb.py:116 is defined only in `SQLiteDatabase` and `MySQLDatabase` (BIdb.py:231, 243), so on the base class it raises AttributeError, which is not modelled.

## Findings

| source | as written | input that shows it | evidently intended | confidence | as-written member | corrected member |
|---|---|---|---|---|---|---|
| BIcolors.py:38-42 | `nextColor` wraps its pointer at the class default `size`, 27, because the constructor never stores the size given | `Palette(size=64)`: the 28th draw returns colour 0 again, and colours 27 to 63 are never served | wrap at the palette's own length | not executed | Colors.ServesOnlyFirst27 | Colors.ServesAll |
| BIfile.py:43-52 | `stale` calls `Utils.missingOrStale`, and `Utils` is not defined in the module | any file with one or more sources: the call raises NameError | compare the target with each source through `missingOrStale` | not executed | Files.StaleDisagrees | Files.File.StaleUnder |
| BIansi.py:36-40 | `left` emits final byte `C` and `right` emits `D` | `left(1)` is CUF, which moves the cursor right under ECMA-48 section 8.3.20 | `left` uses CUB (`D`, section 8.3.18) and `right` uses CUF (`C`) | not executed | Ansi.LeftRightSwapped | Ansi.CursorLeft |
| BIdb.py:67-72 | the format string has five placeholders for six arguments, and `str.format` ignores the last one, so ` NOT NULL` is never printed | `DBField("test2", "C5,X,N,D'abc'")` prints `test2 CHAR(5) DEFAULT ''abc''` | append ` NOT NULL` when the flag is set | not executed | Db.NotNullLost | Db.FieldFlagsRoundTrip |
