# Medical report normalisation, in Dafny

This project models the deterministic core of a medical-report assistant, a
FastAPI service. An uploaded report (PDF, image or plain text) is checked and
classified, and its text is extracted. A language model is then asked for a
structured analysis and a patient-friendly simplification. The model's reply
turns into strict records through these deterministic steps:

- markdown code fences are stripped from the reply before it is parsed;
- every free-form severity word is normalised to one of five levels;
- the loosely typed payload is mapped into `Finding`, `AnalysisResponse`,
  `AbnormalityFlag` and `SimplifiedReport` records, field by field, with defaults.

The modules follow the program's files:

| module | file | models |
|---|---|---|
| `Wrappers`, `Exceptions` | wrappers.dfy | `Option`, `Result`, and the Python exceptions that can escape the code |
| `Text` | text.dfy | the Python `str` operations the code relies on: `strip`, `lower`, `startswith`, `endswith`, `in`, finding the last occurrence of a character, decimal rendering, `join` |
| `Schemas` | schemas.dfy | the two enums and the four response records, with their defaults |
| `Payload` | payload.dfy | the value `json.loads` returns, `dict.get`, iteration and pydantic's field checks, and the append loop |
| `Analyzer` | analyzer.dfy | `_parse_ai_response`, `_normalize_severity` and `_build_analysis_response`, plus the two analysis entry points |
| `Simplifier` | simplifier.dfy | the reply handling, the severity fallback and the record building of `simplify_report` |
| `Parser` | parser.dfy | `detect_file_type`, the page loop of `parse_pdf` and `extract_text` |
| `Upload` | upload.dfy | the validation, naming and response of `upload_report` |

Parsing is a parameter, `loads: string -> Option<Json>`; `None` stands for
the `JSONDecodeError`. The language-model reply is an input string. The page
texts the PDF library returns and the decoded content of a text file are
inputs too.

Two severity tables are modelled as ordered sequences of pairs, since Python
dicts iterate in insertion order. The analyzer's table has 24 entries and is
searched first exactly, then by substring in table order. The simplifier's
table has 12 entries and is searched exactly, with no substring step. Each of
its entries is one of the analyzer's entries, and both map it to the same level.

Behaviour of the code worth noting:

- Each provider call is made once: the code has no retry, backoff or
  model-fallback path.
- The builders do raise on some malformed payloads, such as a finding that is
  not an object, or a `status` that is not a string (`.lower()` on a number).
  Each builder is a `Result`, and its success condition is proved as an
  if-and-only-if (`Analyzer.AnalysisSucceedsIff`, `Simplifier.SimplifiedSucceedsIff`).
- An empty or blank severity gives LOW through the substring step, not the
  final default. `""` is contained in the first key, "borderline", which maps to LOW.
- The upload check and `detect_file_type` compute the extension differently.
  The upload check takes the text after the last dot; `detect_file_type` uses
  `pathlib`'s suffix. So a file named `.pdf` passes every upload check, is
  stored, and then raises `ValueError("Unsupported file type: .")`
  (`Upload.DotFileRaises`).

## Model

| member | source | states |
|---|---|---|
| Text.Trim | app/services/analyzer.py:42 | `str.strip()`: the result has no leading or trailing whitespace and is no longer than the input |
| Text.TrimPadded | app/services/analyzer.py:42 | stripping whitespace-padded trimmed text gives back exactly that text |
| Text.TrimIdempotent | app/services/analyzer.py:52 | stripping twice is stripping once (the parser strips before and after removing fences) |
| Text.TrimEmptyIffAllSpace | app/services/parser.py:31 | a string strips to "" exactly when every character is whitespace |
| Text.LowerIdempotent | app/services/analyzer.py:132 | lowering twice is lowering once |
| Text.TrimKeepsLower | app/services/analyzer.py:132 | stripping lowered text leaves it lowered |
| Text.SubstringIffOccurs | app/services/analyzer.py:173 | Python's `in` on strings holds exactly when the needle occurs at some position |
| Text.SubstringOfItself | app/services/analyzer.py:173 | every string is in itself |
| Text.NotSubstringByChar | app/services/analyzer.py:173 | a needle with a character the haystack lacks is not in it |
| Text.LastIndexOf | app/routers/upload.py:33 | the position of the last occurrence of a character, none exactly when it does not occur |
| Text.LastIndexOfLower | app/services/parser.py:74 | lowering does not move the last dot |
| Schemas.ReportTypeFromValue | app/models/schemas.py:13-17 | `ReportType(s)` gives a member only when `s` is exactly its value |
| Schemas.SeverityFromValue | app/models/schemas.py:20-25 | `SeverityLevel(s)` gives a member only when `s` is exactly its value |
| Schemas.EnumValuesRoundTrip | app/models/schemas.py:13-25 | for both enums, constructing from a value gives back the member exactly when the string is that member's value |
| Schemas.EnumMembers | app/models/schemas.py:13-25 | `ReportType` has exactly four distinct members: lab_test, radiology, prescription, general; `SeverityLevel` has exactly five: normal, low, medium, high, critical |
| Schemas.SchemaDefaults | app/models/schemas.py:42-84 | Finding's unit, reference range and interpretation default to none and its status to NORMAL. AnalysisResponse's report type defaults to GENERAL, with empty findings and terms. A flag's recommendation defaults to none. A simplified report has empty lists and the fixed disclaimer |
| Payload.Elements | app/services/analyzer.py:187 | iterating over a payload value: a list yields its items, a string its characters in order, an empty dict nothing, a non-empty dict `AttributeError`, and null, a boolean or a number `TypeError` |
| Payload.AsStrList | app/models/schemas.py:56 | pydantic's `list[str]` check succeeds exactly on lists of strings and keeps their order and length |
| Payload.MapAll | app/services/analyzer.py:186-197 | converting every element succeeds exactly when each element converts, keeping count and order; otherwise it fails with the first failing element's error |
| Payload.MapAllFirstFailure | app/services/analyzer.py:186-197 | the loop stops at the first element that fails and reports its error |
| Payload.AppendEach | app/services/simplifier.py:109-140 | the append loop computes exactly `MapAll` |
| Analyzer.StripCodeFences | app/services/analyzer.py:42-52 | the text handed to `json.loads` is trimmed and no longer than the reply |
| Analyzer.DropOpeningFence | app/services/analyzer.py:45-48 | the opening-fence step; its behaviour is stated by `JsonFenceIsFence`, `StripJsonFence`, `BareFenceIsNotJsonFence`, `StripBareFence` and `StripUnfenced` |
| Analyzer.DropClosingFence | app/services/analyzer.py:49-50 | the closing-fence step; its behaviour is stated by `DropClosingAfter` and `StripClosingFenceOnly` |
| Analyzer.JsonFenceIsFence | app/services/analyzer.py:45-48 | a reply starting with ```` ```json ```` also starts with ```` ``` ````, so the first branch decides |
| Analyzer.StripPadded | app/services/analyzer.py:42 | whitespace around a fenced reply does not change the result |
| Analyzer.DropClosingAfter | app/services/analyzer.py:49-50 | a trailing fence is cut off exactly |
| Analyzer.StripJsonFence | app/services/analyzer.py:45-52 | ```` ```json ```` + X + ```` ``` ```` strips to X trimmed |
| Analyzer.BareFenceIsNotJsonFence | app/services/analyzer.py:45-47 | a bare fence whose content does not begin with "json" is not taken for a ```` ```json ```` fence |
| Analyzer.StripBareFence | app/services/analyzer.py:47-52 | ```` ``` ```` + X + ```` ``` ```` strips to X trimmed when X does not start with "json" |
| Analyzer.StripUnfenced | app/services/analyzer.py:42-52 | text that neither starts nor ends with a fence is only trimmed |
| Analyzer.StripClosingFenceOnly | app/services/analyzer.py:49-52 | a trailing fence is removed even without an opening one |
| Analyzer.ParseAiResponse | app/services/analyzer.py:37-52 | parsing fails only with the JSON decode error |
| Analyzer.CleanReply | app/services/analyzer.py:42-50 | the step-by-step reassignment of `text` computes exactly the fence-stripped text |
| Analyzer.ParseIgnoresFences | app/services/analyzer.py:37-52 | a reply parses to the same result with or without either kind of fence, and an unfenced reply parses as its trimmed text |
| Analyzer.Lookup | app/services/analyzer.py:168-169 | exact lookup finds nothing exactly when no key equals the input, and otherwise returns the level of a matching entry |
| Analyzer.LookupKey | app/services/analyzer.py:168-169 | with distinct keys, looking up a table key returns its own level |
| Analyzer.FirstRelated | app/services/analyzer.py:172-174 | the fuzzy step picks the first entry, in table order, whose key is in the input or contains it; none exactly when no key is related |
| Analyzer.SynonymKeysDistinct | app/services/analyzer.py:141-166 | the 24 keys of the synonym table are pairwise distinct |
| Analyzer.SynonymKeysDistinctFrom | app/services/analyzer.py:141-166 | proof helper for `SynonymKeysDistinct`: one quarter of the distinctness of the 24 keys |
| Analyzer.PlainKeyClean | app/services/analyzer.py:132 | lowering and stripping leave a lower-case unpadded key unchanged |
| Analyzer.SynonymKeysPlain | app/services/analyzer.py:141-166 | every key is lower-case, unpadded and not a level name, so only the table step can match it |
| Analyzer.SynonymKeysPlainFrom0 | app/services/analyzer.py:142-147 | proof helper for `SynonymKeysPlain`: keys 1 to 6 are plain |
| Analyzer.SynonymKeysPlainFrom6 | app/services/analyzer.py:148-153 | proof helper for `SynonymKeysPlain`: keys 7 to 12 are plain |
| Analyzer.SynonymKeysPlainFrom12 | app/services/analyzer.py:154-159 | proof helper for `SynonymKeysPlain`: keys 13 to 18 are plain |
| Analyzer.SynonymKeysPlainFrom18 | app/services/analyzer.py:160-165 | proof helper for `SynonymKeysPlain`: keys 19 to 24 are plain |
| Analyzer.CleanIdempotent | app/services/analyzer.py:132 | lowering and stripping twice is doing it once |
| Analyzer.NormalizeSeverityIn | app/services/analyzer.py:127-177 | `_normalize_severity` over any synonym table: a level name wins, and every result is that level, a level listed in the table, or LOW. The steps are pinned by `NormalizeUsesCleanInputOnly`, `NormalizePaddedName`, `NormalizeKey`, `NormalizeFirstRelated`, `NormalizeUnrelated` and `NormalizeBlankIn` |
| Analyzer.NormalizeSeverity | app/services/analyzer.py:127-177 | `_normalize_severity` with its 24-entry table; its values are stated by `NormalizeSynonyms`, `NormalizeBlank`, `NormalizeSlightlyAbnormal`, `MildlyAbnormalExactFirst`, `NormalizeSpacedHigh` and `NormalizeRoundTrip` |
| Analyzer.NormalizeUsesCleanInputOnly | app/services/analyzer.py:132-177 | for any table, the level depends only on the input lowercased and stripped |
| Analyzer.LevelNamePlain | app/models/schemas.py:20-25 | each level's value is lower-case and unpadded |
| Analyzer.NormalizePaddedName | app/services/analyzer.py:132-136 | a level name in any case with any whitespace padding normalises to that level |
| Analyzer.NormalizeRoundTrip | app/services/analyzer.py:135-136 | normalising the value of any level gives that level back |
| Analyzer.NormalizeKey | app/services/analyzer.py:168-169 | for any table with distinct plain keys, each key normalises to its listed level |
| Analyzer.FirstRelatedAt | app/services/analyzer.py:172-174 | an entry related to the input with no related entry before it is the one the fuzzy step picks |
| Analyzer.NormalizeFirstRelated | app/services/analyzer.py:171-174 | with no level-name and no exact match, the result is the level of the first related entry |
| Analyzer.NormalizeUnrelated | app/services/analyzer.py:171-177 | with no level name, no exact key and no related key, the result is LOW |
| Analyzer.NormalizeBlankIn | app/services/analyzer.py:172-174 | for any table with non-empty keys, a blank input gets the first entry's level, because "" is in every key |
| Analyzer.NormalizeSynonyms | app/services/analyzer.py:141-169 | each of the 24 keys normalises to its listed level |
| Analyzer.NormalizeBlank | app/services/analyzer.py:172-177 | an empty or whitespace-only severity normalises to LOW |
| Analyzer.FirstFourKeyChars | app/services/analyzer.py:142-145 | the first four keys each have a character that tells them apart from "…abnormal" inputs |
| Analyzer.UnrelatedByChars | app/services/analyzer.py:173 | strings that each have a character the other lacks are unrelated |
| Analyzer.UnrelatedToFirstFour | app/services/analyzer.py:142-145 | an input with an "m" and no "e" or "w" is related to none of the first four keys |
| Analyzer.AbnormalEntries | app/services/analyzer.py:146-147 | "abnormal" (MEDIUM) is listed before "mildly abnormal" (LOW) |
| Analyzer.SlightlyAbnormalIsNoKey | app/services/analyzer.py:132-169 | "slightly abnormal" is clean, no level name and no key |
| Analyzer.NormalizeSlightlyAbnormal | app/services/analyzer.py:171-174 | "slightly abnormal" normalises to MEDIUM through "abnormal" |
| Analyzer.NormalizeViaAbnormal | app/services/analyzer.py:142-174 | a clean input that is no level name and no key, related to "abnormal", with an "m" but no "e" or "w" (so unrelated to the four entries before "abnormal"), normalises to MEDIUM |
| Analyzer.MildlyAbnormalExactFirst | app/services/analyzer.py:147-174 | "mildly abnormal" gives LOW by the exact lookup, though the fuzzy step alone would give MEDIUM from "abnormal" |
| Analyzer.NormalizeSpacedHigh | app/services/analyzer.py:132-136 | " High " normalises to HIGH under any synonym table, since the exact level match comes first |
| Analyzer.FindingOf | app/services/analyzer.py:189-196 | a finding is built exactly when each field has its declared type: parameter defaults to "Unknown", value to "N/A", the optional fields to none; otherwise it is a validation error |
| Analyzer.FindingFrom | app/services/analyzer.py:187-197 | one finding: success exactly for a well-formed object. Its status is the normalised raw status, "normal" when absent. A non-object or non-string status raises AttributeError |
| Analyzer.ReportTypeFrom | app/services/analyzer.py:200-204 | any report type other than GENERAL comes from exactly its own value |
| Analyzer.BuildAnalysisResponse | app/services/analyzer.py:180-213 | the loop that appends findings computes exactly the analysis response of the payload |
| Analyzer.AnalysisFrom | app/services/analyzer.py:180-213 | `_build_analysis_response` on the decoded payload; when it succeeds is stated by `AnalysisSucceedsIff`, what it builds by `AnalysisFields`, `EmptyPayloadDefaults` and `OneFindingResponse` |
| Analyzer.FindingsLoopSucceedsIff | app/services/analyzer.py:186-197 | the findings loop succeeds exactly for a well-formed `findings` value |
| Analyzer.AnalysisSucceedsIff | app/services/analyzer.py:180-213 | building succeeds exactly for an object with well-formed findings, a string summary, and string medical terms |
| Analyzer.AnalysisFields | app/services/analyzer.py:186-213 | the record's fields:<br>- file id and raw text pass through;<br>- the report type comes from `report_type`;<br>- the summary defaults to "Analysis complete.";<br>- the medical terms are the payload's, in order, or [];<br>- the findings keep the payload's count and order, or are [] |
| Analyzer.ReportTypeExact | app/services/analyzer.py:200-204 | each report type's value maps to it; other casings and non-strings give GENERAL |
| Analyzer.NormalizeDefaultStatus | app/services/analyzer.py:194 | the default status "normal" gives NORMAL |
| Analyzer.FindingDefaults | app/services/analyzer.py:189-196 | an empty finding object gives Finding("Unknown", "N/A") with all defaults |
| Analyzer.FindingWithNormalStatus | app/services/analyzer.py:194 | a finding whose status is absent or "normal" gets NORMAL |
| Analyzer.ParameterOnlyFinding | app/services/analyzer.py:190-196 | a finding with only a parameter keeps it and defaults the rest |
| Analyzer.EmptyPayloadDefaults | app/services/analyzer.py:186-213 | `{}` gives the default summary, GENERAL, no findings and no terms, with the id and raw text passed in |
| Analyzer.MeasuredFinding | app/services/analyzer.py:189-196 | parameter, value and unit are carried over, with no reference range or interpretation |
| Analyzer.OneFindingResponse | app/services/analyzer.py:186-213 | a payload with one finding, a summary and no terms gives a response holding exactly that finding and summary |
| Analyzer.AnalyzeTextReport | app/services/analyzer.py:80-81 | the text path parses the reply and builds the response with the report text as raw text |
| Analyzer.AnalyzeImageReport | app/services/analyzer.py:123-124 | the image path parses the reply and builds the response with no raw text |
| Analyzer.AnalyzeReply | app/services/analyzer.py:80-81 | decode then build, shared by both entry points; stated by `AnalyzeReplyOutcome` and `AnalyzeIgnoresFences` |
| Analyzer.AnalyzeReplyOutcome | app/services/analyzer.py:80-81 | an unparsable reply fails with the decode error; a response carries the given id and raw text |
| Analyzer.AnalyzeIgnoresFences | app/services/analyzer.py:37-52 | fencing a reply either way does not change the response |
| Simplifier.ReplyText | app/services/simplifier.py:97 | missing or empty content is read as "{}", other content as itself |
| Simplifier.EmptyObjectTextUnchanged | app/services/simplifier.py:98-106 | "{}" passes through fence stripping unchanged |
| Simplifier.FallbackUsesCleanInputOnly | app/services/simplifier.py:111-130 | for any table, the level depends only on the severity lowercased and stripped |
| Simplifier.FallbackSeverityIn | app/services/simplifier.py:111-130 | the simplifier's severity step over any table: a level name wins, and every other result is the level of an entry keyed by the cleaned severity, or LOW. The steps are pinned by `FallbackUsesCleanInputOnly`, `FallbackPaddedName`, `FallbackKey` and `FallbackExactOnly` |
| Simplifier.FallbackSeverity | app/services/simplifier.py:111-130 | the simplifier's severity step with its 12-entry table; its values are stated by `FallbackSynonyms`, `FallbackRoundTrip`, `FallbackAgreesWithAnalyzer` and `FallbackMissesAnalyzerKeys` |
| Simplifier.FallbackPaddedName | app/services/simplifier.py:111-113 | a level name in any case with any padding gives that level |
| Simplifier.FallbackRoundTrip | app/services/simplifier.py:112-113 | the value of any level gives that level back |
| Simplifier.FallbackKey | app/services/simplifier.py:130 | for any table with distinct plain keys, each key gives its listed level |
| Simplifier.FallbackExactOnly | app/services/simplifier.py:130 | without a level name or an exact key, the result is LOW; there is no substring step |
| Simplifier.FallbackKeysDistinct | app/services/simplifier.py:116-129 | the 12 fallback keys are pairwise distinct |
| Simplifier.FallbackKeysDistinctFrom | app/services/simplifier.py:116-129 | proof helper for `FallbackKeysDistinct`: one half of the distinctness of the 12 keys |
| Simplifier.FallbackKeysPlain | app/services/simplifier.py:116-129 | every fallback key is lower-case, unpadded and not a level name |
| Simplifier.FallbackKeysPlainFrom | app/services/simplifier.py:116-129 | proof helper for `FallbackKeysPlain`: one half of the plainness of the 12 keys |
| Simplifier.FallbackSynonyms | app/services/simplifier.py:116-130 | each of the 12 keys gives its listed level |
| Simplifier.FallbackEntriesFrom0 | app/services/simplifier.py:116-122 | fallback entries 1 to 6 are the analyzer's entries 1-5 and 9 |
| Simplifier.FallbackEntriesFrom6 | app/services/simplifier.py:123-128 | fallback entries 7 to 12 are analyzer entries, key and level alike |
| Simplifier.FallbackEntriesInSynonyms | app/services/simplifier.py:116-129 | each of the 12 fallback entries is an entry of the analyzer's table, key and level alike |
| Simplifier.FallbackAgreesWithAnalyzer | app/services/simplifier.py:116-129 | on every fallback key, both severity steps give the same listed level |
| Simplifier.ExtremelyHighIsNoFallbackKey | app/services/simplifier.py:116-129 | "extremely high" is clean, no level name and not a fallback key |
| Simplifier.UrgentIsNoFallbackKey | app/services/simplifier.py:116-129 | "urgent" is clean, no level name and not a fallback key |
| Simplifier.FallbackMissesAnalyzerKeys | app/services/simplifier.py:130 | "extremely high" and "urgent" give LOW here, where the analyzer gives CRITICAL |
| Simplifier.FlagOf | app/services/simplifier.py:132-140 | a flag is built exactly when each field has its declared type: parameter "Unknown", value "N/A", explanation "" and recommendation none by default; otherwise a validation error |
| Simplifier.FlagFrom | app/services/simplifier.py:110-140 | one abnormality: success exactly for a well-formed object, with the fallback severity of the raw severity, "normal" when absent |
| Simplifier.SimplifiedFrom | app/services/simplifier.py:108-148 | the report built from the decoded payload; when it succeeds is stated by `SimplifiedSucceedsIff`, what it builds by `SimplifiedFields` and `EmptyPayloadReport` |
| Simplifier.SimplifyReply | app/services/simplifier.py:96-148 | reply text, decode, build; stated by `EmptyReplyDefaults` and `SimplifyIgnoresFences`, and computed step by step by `SimplifyReport` |
| Simplifier.FlagWithNormalSeverity | app/services/simplifier.py:111 | an absent or "normal" severity gives NORMAL |
| Simplifier.FlagDefaults | app/services/simplifier.py:132-140 | an empty abnormality object gives the flag of all defaults |
| Simplifier.FlagsLoopSucceedsIff | app/services/simplifier.py:109-140 | the flag loop succeeds exactly for a well-formed `abnormalities` value |
| Simplifier.SimplifiedSucceedsIff | app/services/simplifier.py:108-148 | building succeeds exactly for an object with well-formed abnormalities, a string summary, and string questions |
| Simplifier.SimplifiedFields | app/services/simplifier.py:142-148 | the report's fields:<br>- the id and original summary pass through unchanged;<br>- the disclaimer is fixed;<br>- the summary defaults to "Analysis complete.";<br>- the questions and flags keep the payload's count and order, or are [] |
| Simplifier.EmptyPayloadReport | app/services/simplifier.py:142-148 | `{}` gives the default summary, no flags and no questions |
| Simplifier.SimplifyReport | app/services/simplifier.py:96-148 | the step-by-step reply handling and the append loop compute exactly the simplification of the reply |
| Simplifier.EmptyReplyDefaults | app/services/simplifier.py:97-147 | missing or empty content gives the default report |
| Simplifier.SimplifyIgnoresFences | app/services/simplifier.py:98-106 | fencing the content either way does not change the report |
| Parser.BaseName | app/services/parser.py:74 | `Path(p).name` is the last component and holds no `/` |
| Parser.Extension | app/services/parser.py:74 | the lowered suffix without its dot holds no dot |
| Parser.DetectFileType | app/services/parser.py:74-82 | pdf gives pdf; png, jpg and jpeg give image; txt gives text; each exactly then. Any other extension raises `ValueError("Unsupported file type: .<ext>")` |
| Parser.BaseNameLower | app/services/parser.py:74 | lowering a path lowers its last component |
| Parser.DetectIgnoresCase | app/services/parser.py:74-82 | classification ignores the case of the name |
| Parser.BaseNameOfName | app/services/parser.py:74 | a name without a directory is its own last component |
| Parser.BaseNameOfPath | app/services/parser.py:74 | the last component of dir/name is name |
| Parser.ExtensionOfName | app/services/parser.py:74 | the extension of stem.ext is ext lowered |
| Parser.ExtensionOfDotFile | app/services/parser.py:74 | a name that is a dot and an extension has no suffix |
| Parser.DetectUpperCaseImage | app/services/parser.py:74-78 | a `.JPG` file is an image |
| Parser.DetectNestedText | app/services/parser.py:74-80 | a `.txt` file inside a directory is text |
| Parser.DetectUnknownExtension | app/services/parser.py:81-82 | a `.heic` file raises `ValueError("Unsupported file type: .heic")` |
| Parser.DetectDotFile | app/services/parser.py:74-82 | a file named `.pdf` raises `ValueError("Unsupported file type: .")` |
| Parser.RenderedAppend | app/services/parser.py:32 | rendering one more entry appends its text |
| Parser.ParsePdf | app/services/parser.py:27-35 | the page loop computes exactly the assembled text of the pages |
| Parser.PageEntries | app/services/parser.py:29-32 | the numbered, stripped texts of the non-blank pages; stated by `EntryIsNonBlankPage`, `EntryNumbersIncrease`, `NonBlankPagesHaveEntries`, `EntryCount` and `NoEntriesIffAllBlank` |
| Parser.PdfText | app/services/parser.py:27-35 | the text `parse_pdf` returns; computed by `ParsePdf`, and stated by `PdfTextEmptyIffAllBlank` and `PdfTextExample` |
| Parser.EntryIsNonBlankPage | app/services/parser.py:29-32 | section k is a non-blank page under its own 1-based number, with its text stripped |
| Parser.EntriesAreNonBlankPages | app/services/parser.py:29-32 | every section is a non-blank page under its own 1-based number, with its text stripped |
| Parser.EntryNumbersIncrease | app/services/parser.py:29-32 | the page numbers of the sections strictly increase |
| Parser.NonBlankPagesHaveEntries | app/services/parser.py:29-32 | every non-blank page has a section |
| Parser.PositionsOfInit | app/services/parser.py:29-31 | one more page adds its position to the non-blank ones exactly when it is non-blank |
| Parser.EntryCount | app/services/parser.py:29-32 | there are exactly as many sections as non-blank pages |
| Parser.NoEntriesIffAllBlank | app/services/parser.py:29-32 | there are no sections exactly when every page is blank |
| Parser.PdfTextEmptyIffAllBlank | app/services/parser.py:29-35 | the assembled text is empty, and also blank, exactly when every page is blank |
| Parser.EntriesExample | app/services/parser.py:29-32 | a blank first page and a padded second page give a single section, numbered 2 |
| Parser.PdfTextOfOneEntry | app/services/parser.py:35 | one section joins to itself |
| Parser.RenderPageTwo | app/services/parser.py:32 | the section for page 2 starts with "--- Page 2 ---\n" |
| Parser.PdfTextExample | app/services/parser.py:27-35 | a blank page then " X\n" assemble to "--- Page 2 ---\nX" |
| Parser.ExtractText | app/services/parser.py:97-111 | extraction fails exactly when classification fails |
| Parser.ExtractByType | app/services/parser.py:99-109 | images give none and text files their content. A PDF gives none exactly when all pages are blank, and otherwise its assembled text |
| Upload.UploadExtension | app/routers/upload.py:33 | the upload extension holds no dot and is "" for a name without one |
| Upload.ValidateUpload | app/routers/upload.py:30-50 | every rejection is an HTTP 400 or 413 |
| Upload.StoredFileName | app/routers/upload.py:53-54 | the stored name starts with the id and "_" and ends with the original name |
| Upload.UploadMessage | app/routers/upload.py:72-76 | the message of the response; stated by `MessageChoice` |
| Upload.UploadReport | app/routers/upload.py:29-76 | `upload_report` from the request to the response; stated by `UploadFields`, `UploadByType`, `NoFilenameRejectedFirst`, `ExtensionCheckedBeforeSize`, `SizeLimit` and `DotFileRaises` |
| Upload.MaxBytesValue | app/routers/upload.py:45 | the limit is 10 × 1024 × 1024 = 10485760 bytes |
| Upload.TooLargeText | app/routers/upload.py:47-50 | the 413 message reads "File too large. Maximum allowed: 10MB" |
| Upload.UnsupportedText | app/routers/upload.py:35-38 | the 400 extension message names the extension, then the allow-list as Python prints it |
| Upload.QuotedItemsCons | app/routers/upload.py:37 | quoting a list of two or more items quotes the first and adds ", " before the rest |
| Upload.AllowedListText | app/routers/upload.py:37 | the allow-list prints as `['pdf', 'png', 'jpg', 'jpeg', 'txt']` |
| Upload.NoFilenameRejectedFirst | app/routers/upload.py:30-31 | a missing or empty filename is rejected with 400 "No filename provided." before any other check |
| Upload.UploadExtensionIsLastPart | app/routers/upload.py:33 | the extension is the text after the last dot, lowered |
| Upload.ExtensionCheckedBeforeSize | app/routers/upload.py:33-50 | an extension outside the allow-list is rejected with 400 whatever the size |
| Upload.SizeLimit | app/routers/upload.py:45-50 | an allowed file is rejected with 413 exactly when larger than 10485760 bytes; exactly the limit passes |
| Upload.ValidateAcceptsIff | app/routers/upload.py:30-50 | a file is accepted exactly when it is named, has an allowed extension and is within the limit |
| Upload.UploadExtensionIsSuffix | app/routers/upload.py:33 | for a plain name with an inner last dot, the upload extension equals `detect_file_type`'s |
| Upload.StoredFileNameInjective | app/routers/upload.py:53-54 | with ids of one length, the stored name determines both the id and the original name |
| Upload.MessageChoice | app/routers/upload.py:72-76 | the message says "Text extracted." exactly when the extracted text is present and non-empty |
| Upload.UploadFields | app/routers/upload.py:62-76 | a response comes back exactly when validation passes and the name classifies. A rejection is returned as is. The response echoes the name and gives the byte count, the detected type, the extracted text and the matching message |
| Upload.UploadByType | app/routers/upload.py:63-76 | an accepted image gets no text and the vision message; an accepted text file gets its content |
| Upload.DotFilePassesChecks | app/routers/upload.py:33-38 | `.pdf` passes validation |
| Upload.DotFileRaises | app/routers/upload.py:33-64 | after passing validation, `.pdf` raises `ValueError("Unsupported file type: .")` |

## Left out

- The language-model calls (Gemini and OpenAI clients, prompts, model settings) are foreign SDKs. Their reply is an input string.
- `json.loads` is a parameter; the model does not verify a JSON parser. JSON numbers are integers, since no modelled code reads them.
- File and library I/O is left out:
  - reading image bytes and the MIME map of the image path;
  - the PDF library;
  - base64 encoding in `parse_image`;
  - reading a text file;
  - creating the upload directory and writing the file.

  Page texts and decoded file content are inputs instead.
- `uuid.uuid4()` is an input (`fileId`). The timestamp defaults (`upload_time`, `analysis_time`) are left out, since they read the clock.
- Python's Unicode `lower()` is modelled on ASCII letters only. `strip()` uses Python's full whitespace set.
- `Path(...).name` and `.suffix` are modelled for `/`-separated names. Other `pathlib` normalisations, such as backslashes or drive letters, are not modelled.
- There is no retry/backoff orchestrator in the code, so none is modelled.
- HTTP routing, the FastAPI app wiring, the retrieval engine, the Streamlit front end and the prompt texts are not part of this model.
- Payload.Elements: a `findings` or `abnormalities` value given as a non-empty dict is iterated over its string keys and fails on `.get`. The model goes straight to that `AttributeError`, because a `map` does not record key order.
- Upload.UploadReport: an exception that `detect_file_type` or `extract_text` raises is reported as `Raised(e)`. How FastAPI turns it into an HTTP 500 is not modelled.
