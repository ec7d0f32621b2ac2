# Cam2Gerber in Dafny

Cam2Gerber turns an EAGLE CAM processor job file (`.cam`) into one
`eaglecon` command line per output section. This project models its core.

- **`CamFile` line cursor and matchers.** `CamFile` reads the job file line by line.
  Its matchers recognise the three line shapes `Key=value`, `Key="value"` and
  `Key[lang]="value"`, plus the `[tag]` header.
- **`newParseCam`.** It reads the `[CAM Processor Job]` header, the localized
  description, the `Section=<tag>` declarations and the sections. Each section
  has sixteen fields in a fixed order; six of them are required.
- **The command builder.** Output-name placeholders, layer filtering against the
  board's layers, flag options, and the assembly of the command string.
- **The warning and error counters.**

The model works at two levels:

- **Python's run-time failures** are part of the results. A result is `Outcome`:
  either a value or the Python exception raised (`TypeError`, `AttributeError`,
  `IndexError`). A regular-expression match on the `None` that follows the last
  line raises `TypeError`, as in the script.
- **Stateful code.** The `CamFile` object and the diagnostic counters are Dafny
  classes whose methods mutate fields. Each method is proved against a pure
  function over the stream of upcoming lines, `Upcoming`: the current line
  followed by the right-stripped unread lines.
- **Pure and loop code.** Pure helpers are functions. Loops (the
  multi-language loop, the declaration and section loops, the layer filter and
  the flag encoder) are methods with invariants, proved against those functions.

Files:

- `pylib.dfy`: Python string helpers (`rstrip`, `split`, `" ".join`), the
  reach of the regular-expression `.`, and the last index of a character.
- `linematch.dfy`: the regular-expression matchers, as functions on one line.
- `cursor.dfy`: the `CamFile` class and the stream-level specification of its matchers.
- `diagnostics.dfy`: `warning()` and `error()` and their counters.
- `camparser.dfy`: `newParseCam` as a function and as a method over `CamFile`.
- `parsefacts.dfy`: what the parse guarantees about the sections it returns.
- `camtext.dfy`: the text of a well-formed job file, and the proof that `newParseCam`
  reads back its description and every section in file order, with no diagnostic.
- `outputname.dfy`: `getOutputName`.
- `layers.dfy`: `getValidLayers`.
- `flags.dfy`: `getFlagString`.
- `command.dfy`: `getEagleCommandFromCamSection`.

Where the specification and the code disagree, the model follows the code:

- `getOutputName` returns `None`, not the template, when the template or the board path is empty.
- A section is accepted when its tag is any declared tag. The declaration order is not enforced.
- The header line may carry text after its `]`. The bracket group takes the last `]` on the line.
- The section loop reads a section only after one blank line, and stops at the first non-blank line where a blank separator belongs.
- An empty job file gives the one error "Unable to open", because `maxLines` is 0. A missing job file gives a different error and then an `AttributeError`; that path is not modelled (see "Left out").

A well-formed job file, as `camtext.dfy` writes it, is the header line, one
`Description[lang]="v"` line per description entry, one `Section=<tag>` line
per section, then for each section a blank line, `[tag]` and one `Key="value"`
line for each of its six required fields in table order, and one final blank
line. `CamText.ParseJobLines` proves that `newParseCam` returns exactly that
description and those sections, in file order, with no warning and no error.
The final line is needed: every field of a section is looked up, written or
not, on the line after the last field read. When the file ends with a field
line, the next lookup matches a regular expression against `None` and raises
TypeError. The only safe last lines are the last section's `Colors` field
written as `Colors="v"` with v non-empty, or as `Colors=v`. A last
`Colors=""` line is consumed and the `Colors=value` lookup that follows
raises; a run of `Colors[lang]="v"` lines that ends the file raises too.

## Model

| member | source | states |
|---|---|---|
| PyLib.RStrip | Cam2Gerber.py:141 | The stripped line is a prefix of the line, ends in a non-space, and only whitespace was cut |
| PyLib.SplitJoinSpace | Cam2Gerber.py:397-404 | Splitting words joined by single spaces gives back exactly those words |
| PyLib.DotRunSpec | Cam2Gerber.py:182 | A regular-expression `.` run is the longest newline-free prefix of the text |
| LineMatch.KeyEqValue | Cam2Gerber.py:153-162 | The `Key=` prefix test of getKeyEqValue on one line; no contract of its own, KeyEqValueSpec states it |
| LineMatch.KeyEqValueSpec | Cam2Gerber.py:153-162 | `Key=value` matches exactly the lines that start with `Key=`; the value is the rest of the line |
| LineMatch.KeyEqQuotedVal | Cam2Gerber.py:217-227 | The pattern `Key="(.*)"` on one line; no contract of its own, KeyEqQuotedValSpec states it |
| LineMatch.KeyEqQuotedValSpec | Cam2Gerber.py:217-227 | `Key="value"` starts the line; no double quote follows on that line; a match exists whenever a quote follows `Key="`; no `Key="` prefix means no match |
| LineMatch.LastLangBoundarySpec | Cam2Gerber.py:182 | The language group ends at the last `]="` with a quote after it: the split the greedy `(.+)` settles on |
| LineMatch.KeyLangEqQuotedVal | Cam2Gerber.py:176-188 | The pattern `Key\[(.+)\]="(.*)"` on one line; no contract of its own, KeyLangEqQuotedValSpec, LastLangBoundarySpec, LangValueEndsAtLastQuote and LangBoundaryMatches state it |
| LineMatch.KeyLangEqQuotedValSpec | Cam2Gerber.py:176-188 | A match gives a non-empty language and a value with `Key[lang]="value"` starting the line; neither part holds a newline; no `Key[` prefix means no match |
| LineMatch.LangValueEndsAtLastQuote | Cam2Gerber.py:182 | After a match's closing quote, no double quote follows on that line: the greedy `(.*)` runs to the last one |
| LineMatch.LangBoundaryMatches | Cam2Gerber.py:182-184 | A line that starts with `Key[` and has, before any newline, a `]="` after a non-empty language and a double quote after that, always matches |
| LineMatch.ValInSqBrackets | Cam2Gerber.py:205-215 | The pattern `\[(.+)\]` on one line; no contract of its own, ValInSqBracketsSpec states it |
| LineMatch.ValInSqBracketsSpec | Cam2Gerber.py:205-215 | `[tag]` starts the line with a non-empty tag that ends at the last `]` of the line; a line that starts with `[`, a non-newline character and then a `]` before any newline always matches; a line without a leading `[` never does |
| LineMatch.QuotedValOfLine | Cam2Gerber.py:217-227 | A written `Key="v"` line reads back as v |
| LineMatch.BracketValOfLine | Cam2Gerber.py:205-215 | A written `[tag]` line reads back as tag |
| LineMatch.LangValOfLine | Cam2Gerber.py:176-188 | A written `Key[lang]="v"` line reads back as (lang, v) whenever lang is non-empty, neither part holds a newline and v holds no `]="`; both may hold double quotes |
| LineMatch.ShapesOfKey | Cam2Gerber.py:176-227 | A `Key="v"` line is also a `Key=value` line, and a `Key=value` line is never a `Key[lang]="v"` line |
| LineMatch.OtherKeyLine | Cam2Gerber.py:153-227 | A line `K1=...` has none of the three shapes of a different key K2 |
| LineMatch.EmptyLineNoShape | Cam2Gerber.py:153-227 | The blank line has none of the three shapes of any key |
| CamCursor.Next | Cam2Gerber.py:137-144 | Reading a line keeps the cursor well-formed and never moves it back |
| CamCursor.UpcomingNext | Cam2Gerber.py:137-144 | Reading a line drops exactly the first upcoming line |
| CamCursor.EofUpcoming | Cam2Gerber.py:164-166 | Once reading has started, eof() holds exactly when at most the current line is left |
| CamCursor.CamFile.Eof | Cam2Gerber.py:164-166 | On a well-formed cursor that has started reading, eof() is true exactly when at most one line is upcoming |
| CamCursor.LangEntriesRun | Cam2Gerber.py:190-203 | The multi-language run consists of the matching lines up to the first non-matching one |
| CamCursor.CollectKeys | Cam2Gerber.py:196-203 | The dictionary's keys are exactly the languages matched |
| CamCursor.CollectLast | Cam2Gerber.py:200 | A language given twice keeps its last value |
| CamCursor.CollectUntouched | Cam2Gerber.py:200 | An entry that no later line names keeps its value |
| CamCursor.MultiLangOn | Cam2Gerber.py:190-203 | The multi-language loop over the stream: it consumes lines only from the front, and it returns a dictionary only by stopping at a line that is left; MultiLangOnSpec and LangEntriesRun state which lines it takes |
| CamCursor.MultiLangOnSpec | Cam2Gerber.py:190-203 | The loop collects the run of `Key[lang]="v"` lines and stops before the first other line; a run that reaches the end of input raises TypeError |
| CamCursor.KeyValuePairsOn | Cam2Gerber.py:230-248 | getKeyValuePairs over the stream: it consumes lines only from the front; the KeyValuePairsOn*Line lemmas give its result for each shape of the first line |
| CamCursor.ScalarFallback | Cam2Gerber.py:244-248 | After an empty language run, `Key="v"` then `Key=value`: it consumes lines only from the front; KeyValuePairsOnQuotedLine, KeyValuePairsOnPlainLine and ParseFacts.EmptyQuotedFallsThrough give its result |
| CamCursor.KeyValuePairsOnSuffix | Cam2Gerber.py:230-248 | getKeyValuePairs consumes only leading lines; its only exception is TypeError |
| CamCursor.KeyValuePairsOnLocalized | Cam2Gerber.py:243-244 | A dictionary result is non-empty and consumed exactly the language run |
| CamCursor.KeyValuePairsOnAbsent | Cam2Gerber.py:243-248 | A None result consumed nothing, or consumed only one `Key=""` line |
| CamCursor.KeyValuePairsOnLangLine | Cam2Gerber.py:243-244 | A first `Key[lang]="v"` line gives the dictionary of the whole run and the lines after it, or TypeError when the run reaches the end |
| CamCursor.KeyValuePairsOnQuotedLine | Cam2Gerber.py:243-246 | A first `Key="v"` line with non-empty v gives v and consumes that one line |
| CamCursor.KeyValuePairsOnPlainLine | Cam2Gerber.py:243-248 | A first `Key=value` line that is not `Key="..."` gives value and consumes that one line |
| CamCursor.KeyValuePairsOnOtherLine | Cam2Gerber.py:243-248 | A first line of none of the three shapes gives None and consumes nothing |
| CamCursor.KeyValuePairsOnEnd | Cam2Gerber.py:243 | With no line left, getKeyValuePairs raises TypeError |
| CamCursor.CamFile.constructor | Cam2Gerber.py:126-135 | A new CamFile holds all lines, at index 0, with no current line |
| CamCursor.CamFile.GetNextLine | Cam2Gerber.py:137-144 | getNextLine returns the next right-stripped line and advances by one, or returns None at the end |
| CamCursor.CamFile.IsLinePrefix | Cam2Gerber.py:146-151 | isLinePrefix is true exactly when the current line starts with the prefix; with no current line it raises |
| CamCursor.CamFile.SkipBlankLine | Cam2Gerber.py:168-174 | skipBlankLine advances exactly when the current line is empty or None |
| CamCursor.CamFile.GetKeyEqValue | Cam2Gerber.py:153-162 | getKeyEqValue returns the `Key=value` match of the current line and advances only on a match |
| CamCursor.CamFile.GetKeyLangEqQuotedVal | Cam2Gerber.py:176-188 | getKeyLangEqQuotedVal returns the `Key[lang]="v"` match and advances only on a match |
| CamCursor.CamFile.GetMultipleKeyLangEqQuotedVal | Cam2Gerber.py:190-203 | The loop's result and remaining stream are those of MultiLangOn |
| CamCursor.CamFile.GetValInSqBrackets | Cam2Gerber.py:205-215 | getValInSqBrackets returns the `[tag]` match and advances only on a match |
| CamCursor.CamFile.GetKeyEqQuotedVal | Cam2Gerber.py:217-227 | getKeyEqQuotedVal returns the `Key="v"` match and advances only on a match |
| CamCursor.CamFile.GetKeyValuePairs | Cam2Gerber.py:230-248 | getKeyValuePairs' result and remaining stream are those of KeyValuePairsOn |
| Diagnostics.RunContext.constructor | Cam2Gerber.py:95-96 | Both counters start at zero |
| Diagnostics.RunContext.Warning | Cam2Gerber.py:98-107 | warning() adds one warning and leaves the errors alone |
| Diagnostics.RunContext.Error | Cam2Gerber.py:109-118 | error() adds one error and leaves the warnings alone |
| CamParser.SectionDeclsOn | Cam2Gerber.py:271-279 | The declaration loop over the stream: it consumes lines only from the front; SectionDeclsOnSpec states which tags it collects |
| CamParser.SectionDeclsOnSpec | Cam2Gerber.py:271-279 | The declaration loop collects one tag per leading `Section=` line, in order, and stops before the first other line; reaching the end of input raises TypeError |
| CamParser.FieldOn | Cam2Gerber.py:297-302 | A field fails exactly when getKeyValuePairs raises; a required field is missing exactly when getKeyValuePairs returns a falsy value; otherwise the field holds getKeyValuePairs' value and remaining lines |
| CamParser.FieldsFrom | Cam2Gerber.py:296-335 | The field table read over the stream: reading every field gives one value per field and consumes lines only from the front; a halt never names a field that was read; FieldsFromRequired and CamText.FieldsFromText state the values |
| CamParser.FieldsFromRequired | Cam2Gerber.py:296-335 | Reading all fields leaves every required field truthy |
| CamParser.SectionFieldsOn | Cam2Gerber.py:296-337 | A section that is read carries its tag and every required field; a missing field is one error and no warning |
| CamParser.ReadSectionOn | Cam2Gerber.py:287-340 | A non-blank first line stops the loop silently; a missing or undeclared `[tag]` is one warning; an appended section came after a blank line and its `[tag]` line, its tag was declared and its required fields are truthy; a stop reports at most one diagnostic |
| CamParser.SectionsOn | Cam2Gerber.py:286-340 | The sections returned extend those already read, each declared and complete; at most one diagnostic, and none on an exception |
| CamParser.ParseCam | Cam2Gerber.py:252-341 | A parse reports at most one warning or error; one that raises reports none |
| CamParser.ParseAfterHeader | Cam2Gerber.py:268-341 | Parsing after the header reports at most one warning or error, and none on an exception; ParseFacts.AfterHeaderNoSections and CamText.ParseAfterHeaderText state its result |
| CamParser.ParseCamStart | Cam2Gerber.py:256-267 | An empty file or a wrong header gives an empty job and one error; otherwise parsing continues after the header |
| CamParser.ReadField | Cam2Gerber.py:297-302 | Reading one field is FieldOn on the stream, with one error when a required field is missing |
| CamParser.ReadFields | Cam2Gerber.py:296-335 | The loop over the field table reads the fields FieldsFrom reads |
| CamParser.ReadTaggedSection | Cam2Gerber.py:296-337 | Reading a tagged section's fields is SectionFieldsOn on the stream |
| CamParser.ReadSection | Cam2Gerber.py:287-340 | One pass of the section loop is ReadSectionOn, with its warnings and errors counted |
| CamParser.ReadSectionDecls | Cam2Gerber.py:271-279 | The declaration loop is SectionDeclsOn on the stream |
| CamParser.ReadSections | Cam2Gerber.py:286-340 | The section loop is SectionsOn, with its warnings and errors counted |
| CamParser.ParseBody | Cam2Gerber.py:268-341 | Parsing after the header is ParseAfterHeader, with its diagnostics counted |
| CamParser.NewParseCam | Cam2Gerber.py:252-341 | newParseCam returns ParseCam's job or exception and counts its warnings and errors |
| ParseFacts.DeclaredTagsFromLines | Cam2Gerber.py:271-279 | Every declared tag comes from a `Section=<tag>` line |
| ParseFacts.ParsedSectionsDeclared | Cam2Gerber.py:286-340 | Every returned section is complete and was declared by a `Section=` line of the file |
| ParseFacts.NoSectionsCases | Cam2Gerber.py:259-284 | The 'Sections' entry is missing exactly when the header is absent or nothing is declared; each case is one error |
| ParseFacts.AfterHeaderNoSections | Cam2Gerber.py:268-284 | After the header, 'Sections' is missing exactly when the description loop returns and no `Section=` line follows; that is one error |
| CamText.StrippedUnpadded | Cam2Gerber.py:141 | Lines without trailing whitespace are read unchanged |
| CamText.QuotedLineRead | Cam2Gerber.py:243-246 | A field line `Key="v"` with non-empty v is read as v, consuming that line |
| CamText.FirstLineForeign | Cam2Gerber.py:296-334 | After the written fields from position i on, the next line has no shape of a field before i |
| CamText.FieldsFromText | Cam2Gerber.py:296-334 | Reading the field table over its written lines gives each written value, None for each unwritten field, and stops at the blank line after them |
| CamText.SectionForFields | Cam2Gerber.py:293-336 | The section read from a written section holds its tag, the six required values as written, and None for every other field |
| CamText.BlockRead | Cam2Gerber.py:287-337 | One pass of the section loop over a written section with a declared tag appends its dictionary and leaves the following blank line |
| CamText.SectionsOnText | Cam2Gerber.py:286-340 | The section loop over written sections with declared tags, then one final line, returns every section in order with no diagnostic |
| CamText.DeclsRead | Cam2Gerber.py:271-279 | The declaration loop over the `Section=<tag>` lines, followed by a blank line, declares every tag in order |
| CamText.DescriptionRead | Cam2Gerber.py:190-203 | The description loop reads every `Description[lang]="v"` line, a later line for the same language winning, and stops at the first other line; each language is non-empty, no part holds a newline and no value holds `]="` |
| CamText.ParseAfterHeaderText | Cam2Gerber.py:268-341 | After the header, a written description (entries as for DescriptionRead), declarations and sections are read as written, with no diagnostic |
| CamText.ParseJobLines | Cam2Gerber.py:252-341 | newParseCam on a well-formed job file returns its description and exactly its sections, in file order, with no warning and no error; description entries as for DescriptionRead |
| ParseFacts.EmptyQuotedFallsThrough | Cam2Gerber.py:243-248 | A `Key=""` line is consumed but counts as nothing; the next line may still give the value |
| OutputName.Replacement | Cam2Gerber.py:352-356 | Exactly %N, %E, %P, %H and %% are placeholders |
| OutputName.GetOutputName | Cam2Gerber.py:345-364 | The result is None exactly when the template or board path is falsy; it raises exactly for a truthy dict template |
| OutputName.Expand | Cam2Gerber.py:360-363 | The `re.sub` substitution: a template without '%' comes back unchanged; ExpandEscape, ExpandAppend and ExpandNoRescan state the rest |
| OutputName.ExpandEscape | Cam2Gerber.py:356-363 | Expanding a text with every '%' doubled gives the text back |
| OutputName.ExpandAppend | Cam2Gerber.py:360-363 | A placeholder-free prefix passes through the substitution untouched |
| OutputName.ExpandBoardName | Cam2Gerber.py:347-353 | "%N.cmp" for board acme.brd is "acme.cmp" |
| OutputName.ExpandEscapedPercent | Cam2Gerber.py:356-363 | "%%N" is "%N" |
| OutputName.ExpandNoRescan | Cam2Gerber.py:360-363 | Substituted text is not scanned again |
| Layers.ValidLayers | Cam2Gerber.py:391-404 | The result starts with a space; a non-string layers value raises AttributeError |
| Layers.GetValidLayers | Cam2Gerber.py:391-404 | The loop returns ValidLayers and gives one warning per dropped layer |
| Layers.Kept | Cam2Gerber.py:398-400 | The layers getValidLayers keeps, at most as many as given; KeptMembership and KeptAppend state which |
| Layers.Dropped | Cam2Gerber.py:398-402 | The layers getValidLayers warns about, at most as many as given; DroppedMembership states which |
| Layers.LayerWarnings | Cam2Gerber.py:397-402 | At most one warning per given layer; KeptDroppedCount and Command.CommandWarnings give the exact number |
| Layers.KeptMembership | Cam2Gerber.py:398-400 | A layer is kept exactly when it was given and the board lists it by number or name |
| Layers.DroppedMembership | Cam2Gerber.py:398-402 | A layer gets a warning exactly when it was given and the board does not list it |
| Layers.KeptDroppedPartition | Cam2Gerber.py:398-402 | The kept and the warned-about layers together are the given layers, as a multiset |
| Layers.KeptDroppedCount | Cam2Gerber.py:398-402 | Kept plus warnings equals the number of given layers |
| Layers.KeptAppend | Cam2Gerber.py:398-400 | Filtering a concatenation filters each part |
| Layers.ValidLayersSplit | Cam2Gerber.py:403-404 | Splitting the result again gives exactly the kept layers |
| Layers.KeptExample | Cam2Gerber.py:398-402 | With layers 1 Top and 16 Bottom, the layer list 1, Bottom, 99 keeps 1 and Bottom and warns about 99 |
| Layers.ValidLayersExample | Cam2Gerber.py:391-404 | With layers 1 Top and 16 Bottom, the layers value "1 Bottom 99" gives " 1 Bottom" and one warning |
| Flags.FlagOption | Cam2Gerber.py:429-430 | A setting gives no option exactly when it is its default; otherwise it gives a four-character option |
| Flags.Options | Cam2Gerber.py:428-430 | The options come in whole four-character units |
| Flags.FlagString | Cam2Gerber.py:409-431 | Raises exactly for a non-string flags value (AttributeError) or more than seven settings (IndexError) |
| Flags.GetFlagString | Cam2Gerber.py:424-431 | The loop's result is FlagString |
| Flags.OptionsEmpty | Cam2Gerber.py:425-430 | No option comes out exactly when every setting given is its default |
| Flags.DecodeOptions | Cam2Gerber.py:426-430 | The options name exactly the changed settings, in order, each with its letter, '+' exactly for "1" |
| Flags.OptionsDefaultTail | Cam2Gerber.py:429-430 | Trailing default settings add nothing |
| Flags.OptionsOfDefaults | Cam2Gerber.py:425 | The defaults give no option |
| Flags.OptionsNegativeCoordinates | Cam2Gerber.py:425-430 | The settings 0, 0, 0, 0 give " -c-" |
| Flags.OptionsMirrorOnly | Cam2Gerber.py:425-430 | The settings 1, 0, 0, 1, 0, 1, 1 give " -m+" |
| Flags.FlagStringOfWords | Cam2Gerber.py:424-431 | A flags value of up to seven space-separated settings gives the options of those settings |
| Flags.FlagStringMirrorOnly | Cam2Gerber.py:424-431 | The flags value "1 0 0 1 0 1 1" gives " -m+" |
| Command.OffsetOption | Cam2Gerber.py:473-476 | An offset option is present exactly for a non-zero offset |
| Command.OffsetOptions | Cam2Gerber.py:445-476 | A non-string offset raises TypeError; no option comes out exactly when both offsets are zero |
| Command.WheelPart | Cam2Gerber.py:479 | The wheel option is present exactly for a non-empty wheel name |
| Command.Assemble | Cam2Gerber.py:478-481 | The command string of getEagleCommandFromCamSection; no contract of its own, AssembleShape states its layout |
| Command.AssembleShape | Cam2Gerber.py:478-481 | The command starts with the quoted eaglecon path, the flags, -X, the device and the output name, and ends with the quoted board path and the layers |
| Command.EagleCommand | Cam2Gerber.py:453-482 | The warnings never exceed those of the layer check |
| Command.GetEagleCommand | Cam2Gerber.py:453-482 | The command or exception is EagleCommand's, with the layer warnings counted |
| Command.CommandSucceeds | Cam2Gerber.py:453-482 | A command comes out exactly when CommandPossible holds |
| Command.CommandShape | Cam2Gerber.py:478-481 | A command holds the expanded output name after the flag options and ends with the valid layers |
| Command.CommandWarnings | Cam2Gerber.py:467 | The warnings are exactly the dropped layers: the given layers less those in the command's layer list |
| Command.ParsedSectionCommand | Cam2Gerber.py:453-482 | For a parsed section and a board path, only a localized field or more than seven flag settings stop the command |

## Left out

- `main` and console output. The command-line options, printing, running `eaglecon` and the final report are not modelled. Messages become counter increments.
- File reading. The job file's lines are an input. A missing job file (`error()`, then `AttributeError` on `cam.maxLines`) is not modelled.
- Reading the board file. `getBoardLayerNumberToNameMap` becomes the layer map, an input. Its cache and its `error()` for a missing board file are not modelled.
- `getOffsets`. Its float parsing and unit table are not modelled. Each non-zero offset comes in as the text `str()` gives it. Only the TypeError for a non-string offset is modelled.
- `os.path`. The base name, extension, directory and home directory are inputs (`PathParts`).
- The section name that getEagleCommandFromCamSection computes for getValidLayers (Cam2Gerber.py:462-466) is left out. It only appears in the warning text, and warnings are counted, not printed.
- The sixteen consecutive `getKeyValuePairs` calls of the section loop are modelled as one loop over a table of (key, required) pairs. The table is read in the same order and stops at the same first missing field.
- CamText.ParseJobLines: covers job files that write only the six required fields of each section, each as `Key="value"`. Files that also write optional fields, or that use `Key=value` or `Key[lang]="v"` lines for fields, are not covered by this lemma. They are still covered by the single-line lemmas `CamCursor.KeyValuePairsOn*Line` and by the per-section results of `CamParser`.
