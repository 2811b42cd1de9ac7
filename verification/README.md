# docsearch: a verified model of the range, filter, read and search logic

`docsearch` is a small MCP server with two tools. `docgrep` searches a
directory of office documents (PDF, DOCX, PPTX, XLSX, ODT, ODS, ODP, RTF,
EPUB) for lines that match a pattern. `docread` prints one document
section by section, narrowed by an optional `range` argument and capped at
40,000 characters. Every format decoder turns a file into an ordered list
of `(label, text)` sections. Everything after that point is
document-agnostic, and that part is modelled here:

- `parse_numeric_range`: comma lists of `n` and `a-b` tokens;
- `extract_section_number`: the number a label ends with;
- `filter_sections`, with its three policies:
  - line numbers for `.docx`, `.odt` and `.rtf`;
  - sheet names or indices with an optional row range for `.xlsx` and `.ods`;
  - trailing label numbers for every other format;
- `docread`'s checks, sentinel, rendering and truncation;
- `docgrep`'s allowed-extension set, its walk over the files, and the
  `max_results` cap;
- the constants `SUPPORTED_EXTENSIONS` and `MAX_OUTPUT_CHARS`.

The source updates sets and lists step by step in loops. Each such loop is
a `method` with a `while` loop and its invariants. The method's `ensures`
ties its result to a specification function of its inputs. The lemmas
then prove what the tools promise about those functions.

Modules, one per file:

| file | module | contents |
|---|---|---|
| `wrappers.dfy` | `Wrappers` | `Option` and `Result` |
| `text.dfy` | `Text` | the Python `str` operations the core uses (`strip`, `split`, `join`, `splitlines`, `lower`, `removeprefix`/`removesuffix`, `int()`, `str()`) |
| `intsets.dfy` | `IntSets` | `min`, `max` and `sorted` over a set of integers |
| `documents.dfy` | `Documents` | sections, decoder outcomes, the constants, the errors, and the choice of filter policy |
| `ranges.dfy` | `Ranges` | `parse_numeric_range` |
| `section_number.dfy` | `SectionNumbers` | `extract_section_number` |
| `section_lists.dfy` | `SectionLists` | order-keeping list comprehensions over sections |
| `section_filter.dfy` | `SectionFilter` | `filter_sections` |
| `docread.dfy` | `DocRead` | `docread` |
| `docgrep.dfy` | `DocGrep` | `docgrep` |

Errors the source raises become the `Err` side of a `Result`:
- a `ValueError` from `int()` becomes `InvalidLiteral`;
- `min()` of an empty row range becomes `EmptyRowRange`;
- the tools' own `ValueError`s become `InvalidArgument`;
- a decoder exception becomes `DecoderFailure`.

Some facts about the world are parameters:
- whether the path is a file or a directory;
- its suffix;
- what decoding it gives;
- the sorted walk of a directory, as a list of `Entry` records;
- the compiled pattern, as a predicate on lines.

## Model

| member | source | states |
|---|---|---|
| Documents.PolicyOf | src/docsearch/server.py:200-245 | `.docx`, `.odt` and `.rtf` are filtered by line, `.xlsx` and `.ods` by sheet, and everything else by trailing label number. |
| Documents.NumberedFormats | src/docsearch/server.py:17 | Among the supported extensions, exactly `.pdf`, `.pptx`, `.odp` and `.epub` use the numbered-label policy. |
| Text.TrimLeft | src/docsearch/server.py:185 | The result is a suffix of the input. Every removed leading character is one to drop, and the result does not start with one. |
| Text.TrimRight | src/docsearch/server.py:185 | The result is a prefix of the input. Every removed trailing character is one to drop, and the result does not end with one. |
| Text.StripUnchanged | src/docsearch/server.py:185 | `strip()` leaves a text without surrounding whitespace unchanged. |
| Text.StripIdempotent | src/docsearch/server.py:216 | Stripping twice is stripping once. |
| Text.SplitJoin | src/docsearch/server.py:204 | Joining the pieces of `split(sep)` with `sep` gives the text back. |
| Text.SplitPiecesFree | src/docsearch/server.py:184 | No piece of `split(sep)` contains `sep`. |
| Text.SplitNoSeparator | src/docsearch/server.py:184 | A text without the separator splits into itself alone. |
| Text.SplitAppend | src/docsearch/server.py:184 | Splitting `a + sep + b` gives the pieces of `a`, then the pieces of `b`. |
| Text.JoinSnoc | src/docsearch/server.py:337 | Joining one more part adds the separator and that part. |
| Text.IndexOf | src/docsearch/server.py:187 | The result is the first position of the character. |
| Text.SplitOnce | src/docsearch/server.py:187 | `split(c, 1)` gives the text before the first `c` and the text after it, and the two rebuild the input. |
| Text.SplitOnceAt | src/docsearch/server.py:218 | Splitting `a + c + b` once, where `a` has no `c`, gives back `(a, b)`. |
| Text.RemovePrefix | src/docsearch/server.py:233 | `removeprefix` drops the prefix when it is present and otherwise changes nothing. |
| Text.RemoveSuffix | src/docsearch/server.py:233 | `removesuffix` drops the suffix when it is present and otherwise changes nothing. |
| Text.LastPieceEmpty | src/docsearch/server.py:292 | The last piece of `split(sep)` is empty exactly when the text is empty or ends with `sep`. This is the piece `splitlines()` leaves out. |
| Text.SplitLines | src/docsearch/server.py:292 | No line contains a line break. The empty text has no lines. A text ending in a line break is its lines joined with line breaks plus that one final break, which adds no empty line. Any other text is exactly its lines joined. |
| Text.NatToStringRoundTrip | src/docsearch/server.py:208 | The digits `str(n)` writes spell `n`, as in the `lines min-max` label here and the `rows min-max` label at line 239. |
| Text.ParseIntOfNatToString | src/docsearch/server.py:188 | `int(str(n)) == n` for a non-negative `n`. |
| Text.ParseIntOfIntToString | src/docsearch/server.py:188 | `int(str(n)) == n` for every integer `n`. |
| Text.NegativeDigits | src/docsearch/server.py:222 | `int()` reads a minus sign followed by digits as the negated number. |
| Text.NotAnInt | src/docsearch/server.py:222 | `int()` rejects a text that begins and ends with a digit and has a non-digit inside. |
| Text.DashedIsNotInt | src/docsearch/server.py:222-223 | `int("a-b")` fails for digit runs `a` and `b`, so such a sheet token goes on to the range branch. |
| IntSets.HasMax | src/docsearch/server.py:207 | Every non-empty finite set of integers has a maximum. |
| IntSets.HasMin | src/docsearch/server.py:207 | Every non-empty finite set of integers has a minimum. |
| IntSets.Max | src/docsearch/server.py:207 | `max()` of a non-empty set is a member that bounds every member from above. |
| IntSets.Min | src/docsearch/server.py:207 | `min()` of a non-empty set is a member that bounds every member from below. |
| IntSets.Numbers | src/docsearch/server.py:205 | The members of a set that lie in `lo..hi`, strictly ascending. |
| IntSets.Sorted | src/docsearch/server.py:205 | `sorted()` of a set is strictly ascending and has exactly the set's members. |
| IntSets.IncreasingUnique | src/docsearch/server.py:205 | Two strictly ascending sequences with the same members are equal, so `sorted()` is determined by the set. |
| IntSets.Within | src/docsearch/server.py:205 | The `if 1 <= j <= len(lines)` filter keeps exactly the entries in bounds. |
| IntSets.WithinIncreasing | src/docsearch/server.py:205 | Filtering an ascending sequence leaves it ascending. |
| IntSets.SortedWithin | src/docsearch/server.py:205 | The in-bounds part of `sorted(s)` is the ascending list of the members of `s` in `lo..hi`. |
| Ranges.Interval | src/docsearch/server.py:188 | `range(a, b + 1)` contains exactly the integers from `a` to `b`, and is empty when `b < a`. |
| Ranges.ReadToken | src/docsearch/server.py:185-190 | One loop pass: the token's contribution, or the `int()` failure. |
| Ranges.ParseNumericRange | src/docsearch/server.py:182-191 | The loop returns the union of the tokens' contributions, or the first token's failure. |
| Ranges.UnionOverOk | src/docsearch/server.py:184-190 | The parse succeeds exactly when every token parses. |
| Ranges.UnionOverMembers | src/docsearch/server.py:184-190 | A number is in the result exactly when some token contributes it. |
| Ranges.UnionOverAppend | src/docsearch/server.py:184-190 | Parsing two token lists one after the other gives the union of their results, and fails when either fails. |
| Ranges.RangeOrderIndependent | src/docsearch/server.py:182-191 | `s,t` and `t,s` succeed together and give the same set, the union of the sets of `s` and `t`. |
| Ranges.TokenOfNumbers | src/docsearch/server.py:186-190 | `a-b` adds exactly `{a..b}`, nothing when `b < a`, and `n` adds `{n}`. |
| Ranges.SingleNumberToken | src/docsearch/server.py:189-190 | A token without `-` parses exactly when `int()` accepts it, gives that one number, and otherwise fails on the stripped token. |
| Ranges.SingleTokenRange | src/docsearch/server.py:184 | A text without a comma is parsed as a single token. |
| Ranges.RangeOfSpan | src/docsearch/server.py:182-191 | `parse_numeric_range("a-b")` is `{a..b}`. |
| Ranges.RangeOfNumber | src/docsearch/server.py:182-191 | `parse_numeric_range("n")` is `{n}`. |
| Ranges.RangeAndNumber | src/docsearch/server.py:182-191 | `a-b,n` and `n,a-b` both give `{a..b} ∪ {n}`. |
| SectionNumbers.SectionNumber | src/docsearch/server.py:194-196 | A number is found only when the label, less one final line break, is a single line ending in a digit. SectionNumberIsFirstMatch and SingleLineNumber state its full meaning against the regular expression. |
| SectionNumbers.TrailingDigits | src/docsearch/server.py:195 | The run of digits the text ends with is all digits and cannot be extended to the left. |
| SectionNumbers.TrailingDigitsUnique | src/docsearch/server.py:195 | That maximal run is unique. |
| SectionNumbers.Body | src/docsearch/server.py:195 | `$` may match before one final line break: a label ending in a line break loses exactly that one character, and any other label is kept whole. |
| SectionNumbers.MatchShape | src/docsearch/server.py:195-196 | Every match of `.*?(\d+)$` ends where the label's body ends and starts inside its trailing digits. |
| SectionNumbers.MatchOfNumber | src/docsearch/server.py:195-196 | A found number is a match whose group spans the body's trailing digits. |
| SectionNumbers.SectionNumberIsFirstMatch | src/docsearch/server.py:194-196 | The result is `None` exactly when the pattern does not match, and otherwise it is the value captured by the earliest match. |
| SectionNumbers.SingleLineNumber | src/docsearch/server.py:194-196 | On a one-line label, `None` comes back exactly when the label does not end in a digit, and otherwise the value of the whole trailing digit run (`page 10` gives 10). |
| SectionNumbers.NumberAtEnd | src/docsearch/server.py:194-196 | A label ending in a maximal digit run, with no line break before it, gives that run's value. |
| SectionNumbers.SectionNumberOfLabel | src/docsearch/server.py:194-196 | `page 12`, `slide 3` and `chapter 7` give back 12, 3 and 7. |
| SectionLists.FlatMapAppend | src/docsearch/server.py:203-208 | A comprehension over two lists concatenated is the concatenation of the two comprehensions. |
| SectionLists.FlatMapMembers | src/docsearch/server.py:289-297 | An item is produced exactly when some element produces it. |
| SectionLists.Where | src/docsearch/server.py:245 | Filtering never makes a list longer. |
| SectionLists.WhereSingle | src/docsearch/server.py:245 | A one-element list keeps its element exactly when the test holds. |
| SectionLists.WhereMembers | src/docsearch/server.py:245 | A section is kept exactly when it is in the input and passes the test. |
| SectionLists.WhereAppend | src/docsearch/server.py:245 | Filtering two lists concatenated is the concatenation of the two filtered lists, so the original order is kept. |
| SectionLists.TryFlatMapStops | src/docsearch/server.py:232-239 | The first failing section is the outcome of the whole loop. |
| SectionLists.TryFlatMapFails | src/docsearch/server.py:232-239 | The loop fails exactly when some section, at its 1-based position, fails. |
| SectionLists.TryFlatMapMembers | src/docsearch/server.py:232-241 | A section is in the output exactly when some input section, at its 1-based position, produces it. |
| SectionFilter.PickLines | src/docsearch/server.py:205 | The comprehension picks at most one line per requested number. |
| SectionFilter.LinesAt | src/docsearch/server.py:205 | The k-th picked line is `lines[js[k] - 1]`. |
| SectionFilter.PickLinesWithin | src/docsearch/server.py:205 | Picking lines is taking the in-bounds numbers and indexing with them. |
| SectionFilter.SelectedLines | src/docsearch/server.py:204-205 | The selected lines are the existing requested lines, each once, in ascending order, whatever order the range names them in. |
| SectionFilter.AllLinesSelected | src/docsearch/server.py:205 | Requesting every line number selects all the lines, in order. |
| SectionFilter.AllLinesKeepText | src/docsearch/server.py:204-208 | Requesting every line gives the text back unchanged. |
| SectionFilter.LineSectionKept | src/docsearch/server.py:204-208 | A section survives exactly when some requested number is one of its lines. A survivor is relabelled `label lines min-max` with the requested set's min and max, and its text is the selected lines joined. |
| SectionFilter.SomeLineSelected | src/docsearch/server.py:205-206 | Something is selected exactly when some requested number is a line number. |
| SectionFilter.LineFilterAppend | src/docsearch/server.py:203-208 | Each section is filtered on its own, in input order. |
| SectionFilter.FilterLinesOf | src/docsearch/server.py:204-208 | One loop pass yields that section's output. |
| SectionFilter.FilterLines | src/docsearch/server.py:202-209 | The loop yields the line-policy outputs of all sections, in order. |
| SectionFilter.NumberedFilter | src/docsearch/server.py:244-245 | Never longer than its input, and every kept section is an input section whose label number is in the set. NumberedFilterKeeps and NumberedFilterAppend state the converse and the order. |
| SectionFilter.NumberedFilterKeeps | src/docsearch/server.py:244-245 | A section is kept exactly when it is in the input and its label's number is in the set. A label without a number is never kept. |
| SectionFilter.NumberedFilterAppend | src/docsearch/server.py:245 | Kept sections stay in input order, unchanged. |
| SectionFilter.NumberedLabelKept | src/docsearch/server.py:245 | The section `prefix + str(n)` is kept exactly when `n` is requested. |
| SectionFilter.AddSheet | src/docsearch/server.py:221-230 | Filing a sheet reference adds either indices or the reference itself as a name, never both. It adds no other name and leaves the row range alone. |
| SectionFilter.NotANumber | src/docsearch/server.py:221-223 | `int()` rejects a reference that starts with something other than whitespace, a digit or a sign. |
| SectionFilter.PlainNamePicksSheet | src/docsearch/server.py:223-225 | A reference without a dash that is not a number, such as `Revenue`, becomes a name. |
| SectionFilter.DashedNameFallback | src/docsearch/server.py:223-230 | A reference with a dash whose text before the dash is not a number, such as `Q1-2024`, fails as a range and becomes a name. |
| SectionFilter.ReadSheetReference | src/docsearch/server.py:221-230 | The `try`/`except` chain files the reference as an index, a name, or a range of indices. |
| SectionFilter.ReadSheetToken | src/docsearch/server.py:216-230 | One loop pass reads one token, or fails on its row range. |
| SectionFilter.ReadSheetTokenAt | src/docsearch/server.py:215-230 | Reading the token at `i` extends the selector of the tokens before it, and a failure ends the whole loop. |
| SectionFilter.ParseSheetSelector | src/docsearch/server.py:212-230 | The loop builds the selector of all tokens left to right, or returns the first row-range failure. |
| SectionFilter.FoldTokensStops | src/docsearch/server.py:215-230 | Once a token fails, the loop's result is that failure. |
| SectionFilter.SelectorRows | src/docsearch/server.py:214-220 | Only the last `:` token's row range applies. Without any `:` token there is no row range. Otherwise the row range is what the last `:` token's row part parses to. |
| SectionFilter.SheetTokenRows | src/docsearch/server.py:216-220 | A token without `:` keeps the row range. A token with `:` replaces it with its own, or fails when its own fails, so the last one seen wins. Names and indices only grow. |
| SectionFilter.NumberPicksSheet | src/docsearch/server.py:221-222 | An integer token adds its index. |
| SectionFilter.SpanPicksSheets | src/docsearch/server.py:223-228 | An `a-b` token adds the indices `a..b`. |
| SectionFilter.SheetNameOfLabel | src/docsearch/server.py:233 | The label `sheet 'X'` names the sheet `X`. |
| SectionFilter.FilterSheetAt | src/docsearch/server.py:233-241 | One loop pass yields that sheet's output. |
| SectionFilter.FilterSheets | src/docsearch/server.py:231-242 | The loop yields the outputs of all sheets, in order, or the first failure. |
| SectionFilter.ChosenSheetRows | src/docsearch/server.py:235-239 | With a non-empty row range, a chosen sheet is always emitted, possibly with empty text. It is labelled `label rows min-max` and holds its existing requested rows, in ascending order. |
| SectionFilter.SheetFilterFails | src/docsearch/server.py:232-239 | The sheet policy fails exactly when the row range is empty and some sheet is chosen, because `min()` of an empty set raises. |
| SectionFilter.RowSection | src/docsearch/server.py:236-239 | A chosen sheet cut to its rows is labelled `label rows min-max`. |
| SectionFilter.RowsOutput | src/docsearch/server.py:234-239 | With a non-empty row range, a sheet yields its cut-down section when chosen, and nothing otherwise. |
| SectionFilter.SheetsWithRows | src/docsearch/server.py:231-242 | With a non-empty row range, a section is in the output exactly when it is some chosen sheet cut to the wanted rows. The other sheets contribute nothing. |
| SectionFilter.SheetsWithRowsSnoc | src/docsearch/server.py:231-242 | With a non-empty row range, one more sheet appends its cut-down section to the output when it is chosen and appends nothing otherwise. So the output holds the chosen sheets in document order, one section each. |
| SectionFilter.WholeSheets | src/docsearch/server.py:232-241 | Without a row range, the output is exactly the chosen sheets, unchanged: position `i` in the indices, or the sheet's name in the names. |
| SectionFilter.WholeSheetsSnoc | src/docsearch/server.py:232-241 | Without a row range, one more sheet appends itself, unchanged, to the output when it is chosen and appends nothing otherwise. So the output holds the chosen sheets in document order, each once. |
| SectionFilter.FilterSections | src/docsearch/server.py:199-245 | The dispatcher applies the policy the extension selects, and any parse failure is its result. |
| DocRead.Block | src/docsearch/server.py:336 | Every block starts with the `=== ` header. |
| DocRead.Blocks | src/docsearch/server.py:335-336 | There is one block per section. |
| DocRead.RenderBlocks | src/docsearch/server.py:332-337 | The loop builds the blocks in order and joins them with line breaks. |
| DocRead.Assemble | src/docsearch/server.py:329-339 | The output is the sentinel when no section is left, and otherwise the truncated rendering. |
| DocRead.ReadDocument | src/docsearch/server.py:317-340 | Checks the file, then the lower-cased suffix, then decoding, then the filter when a non-empty range is given, then assembles the output. |
| DocRead.RenderStarts | src/docsearch/server.py:335-337 | A rendering starts with the first section's block. |
| DocRead.RenderSnoc | src/docsearch/server.py:335-337 | One more section adds a line break and its block. |
| DocRead.OutputEmptyIff | src/docsearch/server.py:329-330 | `No text content found.` is returned exactly when no section is left. |
| DocRead.OutputBounded | src/docsearch/server.py:338-339 | A rendering within 40,000 characters is returned whole. A longer one becomes its first 40,000 characters plus the notice. The output never exceeds 40,000 characters plus the notice. |
| DocRead.TruncatePreservesPrefix | src/docsearch/server.py:338-339 | The output always begins with the rendering's first 40,000 characters, or all of it when shorter. |
| DocRead.NoRangeShowsAll | src/docsearch/server.py:326-327 | Without a range, or with an empty one, every decoded section is shown. |
| DocRead.SupportedListingElements | src/docsearch/server.py:321 | The listing in the error message names exactly the supported extensions. |
| DocRead.SupportedListingSorted | src/docsearch/server.py:321 | That listing is in ascending order, as `sorted` leaves it. |
| DocGrep.Dotted | src/docsearch/server.py:269 | A file type always ends up starting with a dot. |
| DocGrep.DottedEither | src/docsearch/server.py:269 | `pdf` and `.pdf` name the same type. |
| DocGrep.AllowedExtensions | src/docsearch/server.py:267-269 | The allowed set is always a subset of the supported extensions. |
| DocGrep.AllowedMembers | src/docsearch/server.py:268-269 | With a non-empty type list, an extension is allowed exactly when it is supported and some given type, dotted, equals it. |
| DocGrep.DefaultSearchesAll | src/docsearch/server.py:267-268 | With no type list, or an empty one, every visible supported file is searched. |
| DocGrep.UpperCaseTypeSelectsNothing | src/docsearch/server.py:269 | The types are not lower-cased, so `["PDF"]` allows nothing. |
| DocGrep.Take | src/docsearch/server.py:273-294 | The cap keeps a prefix of the hits, `max_results` of them or all when fewer, and none when `max_results <= 0`. |
| DocGrep.TakeAtCap | src/docsearch/server.py:273-274 | Once the cap is reached, later hits change nothing. |
| DocGrep.TakeSnoc | src/docsearch/server.py:297 | Below the cap, a new hit is appended. |
| DocGrep.SearchLines | src/docsearch/server.py:292-297 | The line loop appends the matching lines, stripped, until the cap. |
| DocGrep.SearchSections | src/docsearch/server.py:289-297 | The section loop appends each section's hits in order until the cap. |
| DocGrep.SearchEntry | src/docsearch/server.py:275-297 | One file adds nothing when it is skipped, one error line when decoding fails, and otherwise its hits. |
| DocGrep.Grep | src/docsearch/server.py:257-301 | The directory and pattern checks come first. Then the result is the first `max_results` hits in walk order, joined with line breaks, or `No matches found.`. |
| DocGrep.SectionHitsMembers | src/docsearch/server.py:292-297 | A section's output lines are exactly `rel:label:stripped-line` for its matching lines. |
| DocGrep.FileHitsMembers | src/docsearch/server.py:275-297 | A file's output lines are exactly its error line or its match lines, and only when it is searched. |
| DocGrep.HitOrigin | src/docsearch/server.py:272-297 | A line is a hit exactly when it comes from a searched file: its error line, or a match in one of its sections. |
| DocGrep.FailureIsolated | src/docsearch/server.py:282-287 | A failing file adds exactly one error line, and the walk goes on with the next file. |
| DocGrep.SkippedEntryIgnored | src/docsearch/server.py:275-280 | A file that is not a regular file, not an allowed type, or under a hidden path contributes nothing. |
| DocGrep.JoinKeeps | src/docsearch/server.py:301 | A character of the first line survives the join. |
| DocGrep.HitsHaveColon | src/docsearch/server.py:286-297 | Every hit line holds a colon after its path. |
| DocGrep.EntryLineColon | src/docsearch/server.py:286-297 | A file's output line has a colon right after the file's path. |
| DocGrep.GrepOutcome | src/docsearch/server.py:271-301 | `No matches found.` comes back exactly when there are no hits or `max_results <= 0`. Otherwise the output is between 1 and `max_results` hits, a prefix of all hits in walk order, joined with line breaks. |
| DocGrep.LargerCapExtends | src/docsearch/server.py:273-294 | Raising `max_results` only appends further hits. |

## Left out

- The format decoders (`extract_pdf` … `extract_epub`) read files through libraries that are not part of this model. What decoding a file gives is a parameter of type `Extraction`.
- `extract_text`'s own unsupported-type error is not modelled. Both tools check the suffix before calling it, so that error cannot occur.
- The file system is a set of parameters:
  - `Path.resolve`, `is_file` and `is_dir` become booleans;
  - `Path.suffix` is a given string;
  - `rglob` with `sorted` becomes a given list of entries in walk order;
  - `relative_to` becomes each entry's path components.
- Regular expressions in `docgrep` are not modelled: compiling, `IGNORECASE` and `case_sensitive`. A valid pattern is a predicate on lines. An invalid one carries its error text.
- DocGrep.Grep: the keyword defaults of `docgrep` are not applied by the model. A caller passes `max_results` explicitly; its default of 100 is the constant `DocGrep.DefaultMaxResults`. The `file_types` default `None` is the `Option`.
- Logging, the FastMCP server, the tool decorators, `Field` metadata and `main` are left out.
- The `warning` value of `filter_sections` is always `None`, so the warning line `docread` would print is not modelled.
- Text.ParseInt: models `int()` on ASCII decimal text with surrounding whitespace and one sign. It does not model underscores between digits or non-ASCII digits, which Python also accepts.
- SectionNumbers.SectionNumber: reads ASCII digits only. The `\d` of the label pattern and `int()` also accept every other Unicode decimal digit, so a label such as `page ١٢` gives 12 in the source and no number here. The same holds for Text.ParseInt and sheet references.
- Text.IsSpace: covers the ASCII and Latin-1 whitespace that `str.strip()` removes, not the rest of Unicode.
- Text.SplitLines: splits on `\n` only. Python's `splitlines()` also breaks at `\r`, `\r\n`, `\x0b`, `\x0c`, `\x1c`–`\x1e`, `\x85`, `\u2028` and `\u2029`.
- Text.Lower: lower-cases ASCII letters only, as the suffix comparison needs. It does not model Unicode case mapping.
- DocGrep.Entry: a path is a list of components joined with `/`, as `relative_to` prints it on POSIX systems.
