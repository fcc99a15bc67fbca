# Tax-document extraction pipeline, in Dafny

A model of `main.py`, a pipeline that reads the JSON output of a document
intelligence service for tax documents (paystubs, W-2 forms and Form 1120
corporate returns). It covers the four stages with real policy in them:

- **Value cleaning** (`get_field_value`). A value is stripped. A blank or a
  placeholder (`""`, `" "`, `"N/A"`, `"null"`, `"None"`) becomes the
  sentinel `"N/A"`.
- **Date normalisation** (`parse_date`). Five patterns are tried in order
  on the stripped text, each rewriting a date as `MM/DD/YYYY`:
  numeric month first, numeric day first, `DD-monthname-YYYY`,
  `Monthname DD[,] YYYY`, then ISO `YYYY-MM-DD`. A general-purpose parser
  is the last resort. Text nothing applies to comes back stripped.
- **Document-type classification** (`identify_document_type`). The order
  is: indicators in the metadata type or the title, then the first skill
  whose name carries a type marker, then exact skill names, then
  `paystub`.
- **Field extraction** (`extract_document_data`, `extract_from_labels`,
  `parse_date_fields`).
  - The labels of the type's skill are walked depth first into a flat
    record, and the last writer wins.
  - The date fields are normalised.
  - A document lacking its skill or a required field is rejected, with a
    message naming what is missing.
- **Grouping** (`get_grouping_key` and the grouping pass of
  `process_documents`). The extracted records of one type are grouped by
  an identity key. The groups are emitted in first-seen order. Each group
  is sorted by file name; its first record is marked `"original"` and the
  others `"duplicate"`.

## Modules

| File | What it holds |
|---|---|
| `Wrappers.dfy` | `Option` |
| `Strings.dfy` | the ASCII character classes of Python's `\d`, `\w` and `\s`; `str.strip`, `str.lower`, substring search, decimal numbers |
| `FieldValue.dfy` | `get_field_value` |
| `Documents.dfy` | labels, skills, the input document, the three document types, the record type, and the `BaseData` class holding the mutable record |
| `Dates.dfy` | `parse_date`: one matcher per regular expression, proved to accept exactly the strings of its pattern |
| `Classify.dfy` | `identify_document_type` |
| `Labels.dfy` | `extract_from_labels`, a recursive in-place method, proved equal to a replay of the labels in pre-order |
| `Extraction.dfy` | `extract_document_data` and `parse_date_fields`, both methods on `BaseData`, against the specification function `ExtractSpec` |
| `Grouping.dfy` | `get_grouping_key`, and the grouping pass as a method against the specification function `Grouped` |

Where the code behaves differently from what one might expect of it, the
model follows the code:

- The placeholder match is case-sensitive: `"NULL"` is kept as a value and
  only the exact `"null"` is blank (main.py:246).
- Patterns 3, 4 and 5 do not range-check the year. So
  `"08-august-0999"` becomes `"08/08/999"` (main.py:49-57).
- When the document has no `Meta.FileName`, the file's own name already
  ends in `.json`, and a second `.json` is appended (main.py:93).

## Model

| member | source | states |
|---|---|---|
| Strings.Trim | main.py:17 | the result has no leading or trailing whitespace, is no longer than the input, and is the input itself when that is already stripped |
| Strings.TrimIsSlice | main.py:17 | the result is a slice `s[i..j]` of the input whose cut-off ends `s[..i]` and `s[j..]` are all whitespace; with `Trim`'s own contract, exactly the surrounding whitespace is removed |
| FieldValue.GetFieldValue | main.py:244-248 | the result is "N/A" or a stripped, non-empty string other than "null" and "None"; it is "N/A" exactly when the stripped value is one of the five placeholders, and otherwise the stripped value |
| FieldValue.GetFieldValueIdempotent | main.py:244-248 | cleaning a cleaned value changes nothing |
| FieldValue.NAIsClean | main.py:246-247 | the sentinel cleans to itself |
| FieldValue.PlaceholderMatchIsCaseSensitive | main.py:246 | "NULL" survives cleaning while " null " becomes "N/A" |
| Documents.TypeName | main.py:208-242 | the type name is always one of "paystub", "w2", "1120" |
| Documents.BaseData.constructor | main.py:91-95 | the mutable record starts with the given fields |
| Dates.MonthNumbersShape | main.py:19-32 | every month key is a lower-case word of three letters or more, numbered 1 to 12 |
| Dates.MonthNumber | main.py:19-32 | a name has a month number exactly when it is a key of the month table, and the number is that key's, in 1-12 |
| Dates.DigitWordIsNoMonth | main.py:50-53 | a word starting with a digit is never a month name |
| Dates.TakeRunSplits | main.py:36 | a maximal run of a character class splits the text into the run and a rest that does not start with the class |
| Dates.MatchNumericTripleSound | main.py:36 | what the `(\d{1,2})[/-](\d{1,2})[/-](\d{4})` matcher accepts has that shape, split into its groups |
| Dates.MatchNumericTripleComplete | main.py:43 | every string of that shape is accepted, with its groups |
| Dates.MatchDayMonthNameSound | main.py:50 | what the `(\d{1,2})-(\w+)-(\d{4})` matcher accepts has that shape |
| Dates.MatchDayMonthNameComplete | main.py:50 | every string of that shape is accepted, with its groups |
| Dates.MatchMonthNameDaySound | main.py:60 | what the `(\w+)\s+(\d{1,2}),?\s+(\d{4})` matcher accepts is exactly `w + sp1 + d + comma + sp2 + y` with pieces of the pattern's shape, and its groups are `w`, `d` and `y` |
| Dates.MatchMonthNameDayComplete | main.py:60 | every string of that shape is accepted, with its groups |
| Dates.MatchIsoSound | main.py:69 | what the `(\d{4})-(\d{1,2})-(\d{1,2})` matcher accepts has that shape |
| Dates.MatchIsoComplete | main.py:69 | every string of that shape is accepted, with its groups |
| Dates.MonthFirst | main.py:36-40 | pattern 1 produces only `MM/DD/Y...` text |
| Dates.DayFirst | main.py:43-47 | pattern 2 produces only `MM/DD/Y...` text |
| Dates.DayMonthName | main.py:49-57 | pattern 3 produces only `MM/DD/Y...` text |
| Dates.MonthNameDay | main.py:59-66 | pattern 4 produces only `MM/DD/Y...` text |
| Dates.Iso | main.py:68-73 | pattern 5 produces only `MM/DD/Y...` text |
| Dates.MatchDate | main.py:34-73 | the cascade produces only `MM/DD/Y...` text |
| Dates.ParseDate | main.py:15-16 | empty input and "N/A" give "N/A" |
| Dates.ParseDateOfTrimmed | main.py:15-17 | on stripped text that is not "N/A", the result is the first pattern's result, or else the fallback's |
| Dates.NumericTripleOnlyNumeric | main.py:49-73 | a numeric triple is matched by none of patterns 3-5 |
| Dates.NumericDateOrder | main.py:36-47 | `a[/-]b[/-]yyyy` is read month first when a is 1-12 and b is 1-31 (with a four-digit year), day first only when that check fails and b is 1-12 and a is 1-31, and is otherwise left to the fallback |
| Dates.DayMonthNameOnly | main.py:36-73 | `d-word-yyyy` with a word not starting with a digit is matched by no other pattern |
| Dates.DayMonthNameForm | main.py:49-57 | `d-word-yyyy` with a word not starting with a digit gives the month of the lower-cased word when it is a month name and the day is 1-31, whatever the year; the fallback otherwise |
| Dates.MonthNameDayOnly | main.py:36-73 | `Word dd[,] yyyy` is matched by no other pattern, whatever the word's first character |
| Dates.MonthNameDayForm | main.py:59-66 | `Word dd[,] yyyy` (any word) gives the month of the lower-cased word when it is a month name and the day is 1-31, whatever the year; the fallback otherwise |
| Dates.IsoOnly | main.py:36-66 | `yyyy-m-d` is matched by none of patterns 1-4 |
| Dates.IsoForm | main.py:68-73 | `yyyy-m-d` gives `MM/DD/yyyy` when month and day are in range; the fallback otherwise |
| Dates.EightAugustDayFirst | main.py:12 | "08-august-2025" gives "08/08/2025" |
| Dates.EightAugustMonthFirst | main.py:59-66 | "August 08, 2025" gives "08/08/2025" |
| Dates.AugustIsMonthEight | main.py:27 | "august" is its own lower-case form and is month 8 |
| Dates.EighthOf2025 | main.py:57 | "08" and "2025" read as 8 and 2025, and 8/8/2025 prints as "08/08/2025" |
| Dates.UnknownMonthPassesThrough | main.py:49-57 | a `d-word-yyyy` input whose word does not start with a digit and, lower-cased, is no month name comes back unchanged when the fallback parser raises |
| Dates.SmarchIsNoMonth | main.py:27 | "08-smarch-2025" has the `d-word-yyyy` shape and "smarch" is no month name |
| Dates.UnmatchedInputIsStripped | main.py:85 | text no pattern matches comes back stripped when the fallback parser raises |
| Dates.YearNotRangeChecked | main.py:49-57 | a `d-monthname-yyyy` input (the word not starting with a digit) with a year below 1000 is formatted with that year as is, and the result is not a canonical `MM/DD/YYYY` date |
| Dates.AugustYear999 | main.py:49-57 | "08-august-0999" is such an input and gives "08/08/999" |
| Dates.FormatDateCanonical | main.py:40 | the printed date is canonical exactly when the year has four significant digits |
| Dates.CanonicalFixedPoint | main.py:36-40 | a canonical `MM/DD/YYYY` date comes back unchanged |
| Dates.ParseDateIdempotentOnCanonical | main.py:9-85 | normalising twice is normalising once whenever the first result is canonical |
| Classify.IdentifyDocumentType | main.py:214-216 | a w2 indicator in the metadata type or title gives w2 |
| Classify.NameScanFirst | main.py:222-229 | the first skill scan finds nothing exactly when no skill name carries a marker, and otherwise returns the type of the first skill that does |
| Classify.NameScanAt | main.py:222-229 | the first skill scan stops at the first marked skill |
| Classify.MarkedName | main.py:224-229 | a name whose lower-cased form is built around a marker contains it |
| Classify.ExactNamesHaveMarkers | main.py:231-238 | each exact skill name already carries a marker |
| Classify.ExactScanRedundant | main.py:231-238 | when the first scan finds nothing, the exact-name scan finds nothing either |
| Classify.IdentifyByPrecedence | main.py:208-242 | the type is w2 indicators, then 1120 indicators, then the first marked skill, then paystub; the exact-name loop never decides |
| Classify.MetadataBeatsSkills | main.py:211-220 | with an indicator in the metadata type or title, the skills do not matter |
| Classify.FirstMarkedSkillDecides | main.py:222-229 | without indicators, the first skill with a marker decides, whatever follows it |
| Classify.DefaultIsPaystub | main.py:240 | without indicators or marked skills the type is paystub |
| Labels.ExtractFromLabels | main.py:191-206 | the in-place walk leaves the record equal to the recursive walk of the labels from the old record |
| Labels.WalkIsPreorderReplay | main.py:191-206 | the walk applies the labels one by one in pre-order, each label before its children and its children before its next sibling |
| Labels.ReplayLastWriter | main.py:203 | a field holds the value of the last label in pre-order that writes it |
| Labels.ReplayUntouched | main.py:196-203 | a field no label writes keeps its presence and value |
| Labels.OnlyMappedFieldsChange | main.py:203 | a key outside the label map's range is never added or changed |
| Labels.ReplayKeepsKeys | main.py:203 | no field is ever removed |
| Labels.BlankValuesWriteNothing | main.py:197-202 | a label whose values all clean to "N/A" writes nothing |
| Labels.FirstValidValue | main.py:197-203 | the value written is the first value that does not clean to "N/A", cleaned |
| Labels.ChildOverridesParent | main.py:205-206 | once a label below a node writes a field, the node's own value for it is lost |
| Extraction.KeyInjective | main.py:97-143 | different fields have different record keys, and none is a key the pipeline sets itself |
| Extraction.Keys | main.py:97-143 | the keys of a field list are its fields' keys, in order |
| Extraction.DistinctKeys | main.py:97-143 | distinct fields give distinct keys |
| Extraction.ConfigShape | main.py:97-143 | each type's configuration is consistent, its label map writes exactly its required fields, and a paystub, W-2 and Form 1120 require five, three and four fields |
| Extraction.FieldsDistinct | main.py:97-178 | no type lists a required or date field twice |
| Extraction.RequiredKeysNotReserved | main.py:91-136 | no required field is `document_type`, `filename`, `docId` or `status` |
| Extraction.DateKeysRequired | main.py:173-178 | every date field is a required field |
| Extraction.LabelMapCoversRequired | main.py:106-143 | the label map's values are exactly the required keys |
| Extraction.FileNameField | main.py:93 | the `filename` field always ends in ".json" |
| Extraction.SetAllEffect | main.py:99-105 | after the update each listed key holds the value and every other key is unchanged |
| Extraction.InitialRecordShape | main.py:91-136 | the starting record holds the type name, the file name, an empty `docId`, every required field at "N/A", and no status |
| Extraction.FindSkillFirst | main.py:145-150 | the lookup finds nothing exactly when no skill has the name, and otherwise the first one that does |
| Extraction.FindSkillPrefix | main.py:145-150 | skills after the first one with the name are never looked at |
| Extraction.ParseDatesEffect | main.py:181-184 | date normalisation keeps the keys, leaves non-date fields and "N/A" dates alone, and replaces every other date field by its normal form |
| Extraction.ParseDateFields | main.py:170-189 | the in-place loop leaves the record equal to the date normalisation of the old record |
| Extraction.MissingFieldsMember | main.py:156-159 | a field is reported exactly when it is required and present with "N/A" or "" |
| Extraction.MissingFieldsAppend | main.py:156-159 | reports keep the declared order |
| Extraction.CollectMissing | main.py:156-159 | the loop returns the missing required fields in declared order |
| Extraction.ReadSkill | main.py:145-150 | the flag is set exactly when a skill has the name, and only the labels of the first such skill are walked into the record |
| Extraction.ExtractDocumentData | main.py:87-168 | the in-place extraction returns the outcome the specification function gives |
| Extraction.FilledKeepsKeys | main.py:149-154 | reading labels and normalising dates never removes a key |
| Extraction.FilledKeepsUnmapped | main.py:181-184 | a key that is neither mapped nor a date keeps its starting value |
| Extraction.FilledValue | main.py:149-154 | a key holds what the labels wrote, normalised when it is a date field |
| Extraction.FilledUnwritten | main.py:196-203 | a key at "N/A" that no label writes is "N/A" at the end |
| Extraction.SkillMissingRejects | main.py:152-153 | without the skill the document is rejected with "Required skill '<name>' not found", whatever the date normaliser |
| Extraction.FirstSkillDecides | main.py:146-150 | only the first skill with the type's skill name is read |
| Extraction.ExtractedRecordHeader | main.py:164-166 | a success has status "original", an empty `docId`, the type's name and the file name |
| Extraction.ExtractedFieldsPresent | main.py:161-166 | a success has every required field, with a value other than "N/A" and "" |
| Extraction.MissingFieldsReported | main.py:156-162 | once the skill is found, the document is rejected exactly when a required field is blank, and the message lists exactly those fields in declared order |
| Extraction.FieldsComeFromLabels | main.py:154 | in a success each required field holds what the labels wrote, normalised only when it is a date field |
| Extraction.UnwrittenFieldRejects | main.py:156-162 | a required field no label writes makes the document rejected |
| Extraction.W2DatesUntouched | main.py:175-179 | a W-2 outcome does not depend on date normalisation |
| Extraction.DocumentWithoutSkill | main.py:152-153 | a document without its type's skill is rejected with the skill's name, whatever the fallback date parser |
| Extraction.ExtractedDocument | main.py:87-168 | an extracted document is "original", has an empty `docId`, its type, a file name ending ".json", and every required field filled |
| Grouping.KeyOf | main.py:250-280 | a key has one component per identity field |
| Grouping.GroupingKeyLength | main.py:253-280 | a paystub key has five components, a W-2 key three, a Form 1120 key four |
| Grouping.KeyOfComponents | main.py:250-280 | each component is the cleaned field when all identity fields are present, and "N/A" throughout when one is absent |
| Grouping.KeyOfCleaned | main.py:250-280 | every key component is already clean |
| Grouping.KeyNamesNotStatus | main.py:253-272 | `status` is never an identity field |
| Grouping.StampKeepsKey | main.py:325-326 | setting `status` does not change a key that does not read it |
| Grouping.StatusIsNoKeyField | main.py:325-326 | marking a record never changes its grouping key |
| Grouping.KeyFnIgnoresStatus | main.py:250-280 | the key of every type ignores `status` |
| Grouping.Stamp | main.py:325-326 | the copy has the new status and every other field of the record, unchanged |
| Grouping.Strip | main.py:325 | stripping keeps the length |
| Grouping.MarkedShape | main.py:324-327 | marking a group sets "original" on its head and "duplicate" on the rest, and changes nothing else |
| Grouping.LexLeReflexive | main.py:323 | the file-name order is reflexive |
| Grouping.LexLeTotal | main.py:323 | the file-name order is total |
| Grouping.LexLeTransitive | main.py:323 | the file-name order is transitive |
| Grouping.LexLeAntisymmetric | main.py:323 | the file-name order is antisymmetric |
| Grouping.Insert | main.py:323 | insertion adds one record |
| Grouping.SortByFileName | main.py:323 | sorting keeps the length |
| Grouping.InsertPermutes | main.py:323 | insertion adds exactly the one record |
| Grouping.SortedCons | main.py:323 | a record no later than a sorted sequence can lead it |
| Grouping.InsertLowerBound | main.py:323 | a lower bound of the record and of the sequence bounds the insertion |
| Grouping.InsertSorted | main.py:323 | insertion keeps a sequence sorted |
| Grouping.SortByFileNameCorrect | main.py:323 | the sort orders by file name and is a permutation |
| Grouping.SortHead | main.py:323 | the head of the stable sort is the first record, in input order, with the smallest file name |
| Grouping.OrderMembership | main.py:317-319 | a key is listed exactly when some record has it |
| Grouping.OrderDistinct | main.py:317-319 | no key is listed twice |
| Grouping.OrderGrowsByAppending | main.py:317-319 | the keys of a prefix of the input lead the keys of the whole input, so keys are listed in first-seen order |
| Grouping.MembersMembership | main.py:318-319 | a group holds exactly the records with its key |
| Grouping.MembersOfUnseenKey | main.py:317-319 | an unlisted key has no members |
| Grouping.MembersOfSeenKey | main.py:317-319 | a listed key has members |
| Grouping.SortedMembersKey | main.py:322-323 | every record of a sorted group has the group's key |
| Grouping.MarkedKeepsKeysAndOrder | main.py:324-326 | marking keeps keys and file names, hence file-name order |
| Grouping.BlockShape | main.py:322-327 | an emitted group holds its members with their key, in file-name order, the head "original" and the rest "duplicate", and is a permutation of the members outside `status` |
| Grouping.BlockOriginal | main.py:323-326 | the "original" of a group is the first member, in input order, with the smallest file name |
| Grouping.StripAppend | main.py:325 | stripping distributes over concatenation |
| Grouping.StripRemove | main.py:325 | taking a record out takes its stripped copy out |
| Grouping.StripPermutes | main.py:325 | permuted records have permuted stripped copies |
| Grouping.PooledOther | main.py:318-319 | a record with another key adds nothing to a pool of groups |
| Grouping.PooledOwn | main.py:318-319 | a record enters its own group once |
| Grouping.PooledAll | main.py:316-319 | the groups of all listed keys hold every record exactly once |
| Grouping.SortedBlocksPool | main.py:322-323 | the sorted groups laid end to end hold the pooled members |
| Grouping.MarkedBlocksStrip | main.py:322-327 | marking changes nothing outside `status` |
| Grouping.GroupedPermutes | main.py:316-327 | the output is a permutation of the input, nothing changed but `status` |
| Grouping.OriginalsAppend | main.py:327 | the originals of a concatenation are the originals of its parts |
| Grouping.OriginalsOfMarked | main.py:324-327 | a marked group of records with one key has exactly one original |
| Grouping.OriginalsOfBlock | main.py:322-327 | each emitted group has exactly one original, with the group's key |
| Grouping.OriginalsOfBlocks | main.py:322-327 | the originals of the emitted groups are their keys, in order |
| Grouping.GroupedOriginals | main.py:316-327 | reading the originals of the output gives every key exactly once, in first-seen order |
| Grouping.CollectGroups | main.py:317-319 | the dictionary loop returns the keys in first-seen order and, for each, its records in input order |
| Grouping.ConcatBlocksStep | main.py:322-327 | emitting one more group appends its block |
| Grouping.MarkGroup | main.py:324-327 | the enumerate loop emits the marked copies of a group |
| Grouping.EmitGroups | main.py:322-327 | the emit loop produces the marked, sorted groups in order |
| Grouping.GroupAndMark | main.py:316-327 | the grouping pass returns the specification's output |
| Grouping.GroupingPass | main.py:316-327 | the pass is a permutation outside `status`, with exactly one original per key, and the keys appear once each, in first-seen order |

## Left out

- File discovery, JSON reading and writing, and the output file are left out (main.py:284-312, 336-344). They are I/O. The model starts from documents already decoded into datatypes.
- The console messages, the processed and error counters, and the error-file list are left out. They are logging.
- The per-type output sections "Paystubs", "W2" and "1120" are left out (main.py:329-334). They only name the lists that `GroupAndMark` produces for each type.
- The `dateutil` fallback of `parse_date` is a parameter `fallback: string -> Option<string>`, where `None` means the parser raised. It is a third-party parser whose source is not part of this model.
- Python's exception catch-alls are left out. Inputs are well-typed datatypes: strings and lists are never null, and every value is a string. A record missing an identity field is still modelled: its key is all "N/A" (main.py:274-280).
- Characters follow ASCII: `\d`, `\w`, `\s`, `str.strip` and `str.lower` are not modelled on non-ASCII characters.
- Dictionary key order is left out. Records are maps, so the order of fields inside a record and in the output JSON is not modelled. The order of the groups is modelled.
- Grouping.SortByFileName: `list.sort` is modelled as a stable insertion sort on sequences, not as an in-place sort of the group's list.
- Classify.ExactNamesHaveMarkers: states only that each exact skill name carries some marker, not that the marker names the same type; that is all the redundancy of the exact-name loop needs.
- Extraction.ExtractDocumentData: its two loops, the skill scan and the missing-field check, are the helper methods `ReadSkill` and `CollectMissing`.
- Grouping.GroupAndMark: its two loops are the helper methods `CollectGroups` and `EmitGroups`.
