# UNIMARC to Europeana conversion and duplicate filtering, in Dafny

This project models the catalogue pipeline of the songwriters repository.
The pipeline reads a UNIMARC text export of bibliographic records and cuts
it into tagged records. It maps every record to a Europeana Data Model
(EDM) item in JSON-LD, a `edm:ProvidedCHO` with its `ore:Aggregation`. It
then splits the resulting JSON-LD graph into two parts: the records that
already occur in a corpus of records taken from Europeana, and the new ones.
A record occurs in the corpus when some corpus record's title similarity
and creator similarity both lie strictly above a threshold, which defaults
to 0.9.

The modules follow the two scripts.

- `Wrappers`: `Option` and `Result`.
- `Text`: Python's `str.strip`, which removes the characters for which
  `str.isspace` holds (the same set as the regular-expression class
  `\s`), and the ASCII digits.
- `Sequences`: `str.split`/`join` on sequences, and filtering with its
  partition laws.
- `TaggedRecord`: a tagged record. In Python it is a dict from a
  three-digit tag to the list of that tag's contents, kept in insertion
  order. Here it is an association list. `setdefault(tag, []).append(c)`
  is `Append`.
- `Segmentation`: `parse_unimarc_text`. The specification is `Segment`:
  lines are classified as blank, tagged or unmatched, and the result is cut
  into blocks at blank lines. The method `ParseUnimarcText` is the loop and
  is proved equal to `Segment`.
- `Subfields`: `parse_subfields`. The specification `SubfieldsOf` is paired
  with the loop method `ParseSubfields` and with the encoder `Render`, so
  that a round trip can be stated.
- `EdmMapping`: `convert_to_europeana_jsonld`, without the file write.
  `MapRecord` maps one record. The method `ConvertRecord` is the loop over
  its tags; the loop over each tag's contents is `ConvertField`. Together
  they are proved equal to `MapRecord`.
  `ConvertToEuropeana` is the loop over the records and builds the output
  document.
  The description labels are "Sottotitolo: " and "Descrizione fisica: ".
  The title is "" when the record has no 200 field or when the last 200
  field's subfield `a` is empty; it is "Unknown Title" when the last 200
  field has no subfield `a`.
- `Duplicates`: `filter_duplicates`. `IsDuplicate` is the existence test.
  The method `ScanCorpus` is the inner loop, which stops at the first
  match. The method `FilterDuplicates` is the outer loop that partitions
  the records.

The Python code can raise an `IndexError` on two paths, and both are
modelled as `Result` failures:

- a subfield piece after a `$` is empty;
- the `001` list is empty.

A failure aborts the whole conversion, and the first failure is the one
reported.

## Model

| member | source | states |
|---|---|---|
| Text.Strip | marc_to_europeana_jsonld.py:12 | the stripped line neither starts nor ends with whitespace and is no longer than the line |
| Text.StripInfix | marc_to_europeana_jsonld.py:12 | stripping removes exactly the leading and trailing whitespace: the result is a slice of the line and everything outside that slice is whitespace |
| Text.StripIdempotent | marc_to_europeana_jsonld.py:12 | stripping a stripped line changes nothing |
| Segmentation.MatchTagLine | marc_to_europeana_jsonld.py:18-20 | on a stripped line, the tag-line pattern matches exactly when some split into three digits, a whitespace run and a remainder without a newline exists; the tag is the first three characters; the content is the suffix after the whole whitespace run (greedy), so it is non-empty and starts with a non-space character |
| Segmentation.GreedyMatch | marc_to_europeana_jsonld.py:18 | the split that gives the whole whitespace run to `\s+` is the only one to try: it succeeds exactly when some split succeeds |
| Segmentation.Classify | marc_to_europeana_jsonld.py:12-21 | a line is blank exactly when it strips to nothing; a tagged line has a three-ASCII-digit tag and non-empty content with no whitespace at either end |
| Segmentation.ClassifyMeaning | marc_to_europeana_jsonld.py:12-20 | a non-blank line is tagged exactly when its stripped form matches the tag-line pattern; the tag is then the first three characters and the content is the suffix the greedy match assigns to the content group |
| Segmentation.AddLinesWellFormed | marc_to_europeana_jsonld.py:21 | accumulating lines into a record keeps its tags distinct and every tag's list non-empty |
| Segmentation.AddLinesContents | marc_to_europeana_jsonld.py:17-21 | after a run of lines, each tag's list is its old list followed by the contents of that tag's lines, in line order |
| Segmentation.BuildRecordContents | marc_to_europeana_jsonld.py:17-21 | a record built from one block holds, under each tag, exactly the contents of the block's lines with that tag, in order |
| Segmentation.BuildRecordTags | marc_to_europeana_jsonld.py:21 | a record's keys are the block's tags in order of first appearance, without repeats |
| Segmentation.BlankLineSeparates | marc_to_europeana_jsonld.py:13-16 | a blank line closes the current record: segmenting `a + [blank] + b` gives the records of `a` followed by the records of `b` |
| Segmentation.RecordsNonEmpty | marc_to_europeana_jsonld.py:13-23 | an empty record is never emitted, and every emitted record is well formed |
| Segmentation.BuildRecordSkipsUnmatched | marc_to_europeana_jsonld.py:17-21 | a line that does not match the pattern leaves the record being built unchanged |
| Segmentation.UnmatchedLineIgnored | marc_to_europeana_jsonld.py:17-21 | deleting a line that does not match changes no record of the output |
| Segmentation.ParseUnimarcText | marc_to_europeana_jsonld.py:4-24 | the records produced by the loop over the lines are exactly the segmentation of the classified lines |
| TaggedRecord.Append | marc_to_europeana_jsonld.py:21 | appending under a tag adds the content at the end of that tag's list and leaves every other tag's list as it was |
| TaggedRecord.AppendTags | marc_to_europeana_jsonld.py:21 | a new tag goes to the end of the key order; a known tag keeps its place |
| TaggedRecord.AppendWellFormed | marc_to_europeana_jsonld.py:21 | appending keeps the tags distinct and every list non-empty |
| TaggedRecord.FindNonEmpty | marc_to_europeana_jsonld.py:52 | in a well-formed record, a tag's list is never the empty list |
| Sequences.JoinSplit | marc_to_europeana_jsonld.py:31 | joining the pieces of a split with the separator gives back the original text |
| Sequences.SplitJoin | marc_to_europeana_jsonld.py:31 | splitting a join of separator-free pieces gives back the pieces |
| Subfields.ParseSubfields | marc_to_europeana_jsonld.py:26-35 | the loop over the pieces after each `$` returns exactly the subfield specification, including its failure |
| Subfields.SubfieldsFailure | marc_to_europeana_jsonld.py:31-32 | parsing fails exactly when some `$` ends the content or is directly followed by another `$`, the cases where the code lookup raises `IndexError` on an empty piece |
| Subfields.CodeMapDomain | marc_to_europeana_jsonld.py:31-34 | the codes of the parsed map are exactly the first characters of the pieces |
| Subfields.CodeMapLast | marc_to_europeana_jsonld.py:32-34 | a code maps to the stripped rest of the LAST piece that begins with it |
| Subfields.LeadingTextIgnored | marc_to_europeana_jsonld.py:31 | text before the first `$` has no effect on the result |
| Subfields.TrailingSeparatorFails | marc_to_europeana_jsonld.py:31-32 | a field content that ends with `$` fails to parse |
| Subfields.RenderParse | marc_to_europeana_jsonld.py:26-35 | rendering a subfield list whose codes are not `$` and whose values are already stripped and contain no `$`, then parsing it, gives a map whose codes are exactly the rendered codes, each mapped to the value of its last occurrence |
| EdmMapping.IdentifierCases | marc_to_europeana_jsonld.py:52 | the identifier is "unknown" when there is no 001 list; the stripped first 001 content otherwise; an error when the 001 list is empty |
| EdmMapping.WellFormedHasIdentifier | marc_to_europeana_jsonld.py:52 | a well-formed record always has an identifier |
| EdmMapping.SegmentedRecordsHaveIdentifiers | marc_to_europeana_jsonld.py:52 | for every record that the segmenter produces, the identifier lookup cannot fail |
| EdmMapping.ParseAllEntries | marc_to_europeana_jsonld.py:75-77 | parsing all of a record's field contents succeeds exactly when each one does; it then yields one entry per content, in the order of the loop, with the same tag |
| EdmMapping.ConvertRecord | marc_to_europeana_jsonld.py:52-104 | the per-record loop over the tags computes exactly the record mapping, including its failures |
| EdmMapping.ConvertField | marc_to_europeana_jsonld.py:76-104 | the loop over one tag's contents parses and applies them in list order: it fails with the first content that does not parse, and otherwise gives the item filled with all of them |
| EdmMapping.ApplyField | marc_to_europeana_jsonld.py:79-104 | the chain of tag tests changes the item exactly as one parsed field occurrence of that tag prescribes |
| EdmMapping.FillKeepsLinks | marc_to_europeana_jsonld.py:75-104 | reading the fields never changes the item's `@id`, `@type`, `edm:isShownAt`, `edm:preview` or aggregation |
| EdmMapping.FillCreators | marc_to_europeana_jsonld.py:85-91 | the creators are the 700 and 710 occurrences' `a` values, in field order, defaulting to "Unknown Author" and "Unknown Corporate Author" respectively |
| EdmMapping.FillSubjects | marc_to_europeana_jsonld.py:101-104 | the subjects are the non-empty `a` values of the 606 occurrences, in field order |
| EdmMapping.FillDescriptions | marc_to_europeana_jsonld.py:79-99 | the descriptions are, in field order, "Sottotitolo: " plus each non-empty 200 `e` value and "Descrizione fisica: " plus each non-empty 215 `a` value |
| EdmMapping.FillTitle | marc_to_europeana_jsonld.py:79-80 | the title is the `a` value of the LAST 200 occurrence, defaulting to "Unknown Title"; it is unchanged without any 200 |
| EdmMapping.FillDate | marc_to_europeana_jsonld.py:93-94 | the date is the `d` value of the LAST 210 occurrence, defaulting to "Unknown Date"; it is unchanged without any 210 |
| EdmMapping.MapRecordFailure | marc_to_europeana_jsonld.py:52-77 | mapping a record fails exactly when its 001 list is empty or some field content of ANY tag fails subfield parsing |
| EdmMapping.MapRecordItem | marc_to_europeana_jsonld.py:52-104 | a mapped item's URIs are the four prefixes followed by the identifier, its aggregation points back at it, and title, date, creators, subjects and descriptions are those of the field-reading lemmas, starting from empty |
| EdmMapping.SubjectsNonEmpty | marc_to_europeana_jsonld.py:101-104 | no subject of a mapped item is the empty string |
| EdmMapping.ConvertAllItems | marc_to_europeana_jsonld.py:50-106 | converting the records succeeds exactly when each record converts; it then gives one item per record, in record order |
| EdmMapping.ConvertAllFirstFailure | marc_to_europeana_jsonld.py:50-106 | on failure, the reported error is that of the first record that fails, and every earlier record converts |
| EdmMapping.ConvertToEuropeana | marc_to_europeana_jsonld.py:41-110 | the loop over the records returns the document with the `edm`, `dc`, `dcterms` and `ore` namespace context and the converted items exactly when the conversion succeeds, and otherwise the first error |
| Duplicates.PairScoresCover | filter_duplicates_jsonld.py:44-47 | every (input creator, corpus creator) pair's score is among the scores compared |
| Duplicates.PairScoresOnly | filter_duplicates_jsonld.py:44-47 | every score compared is the score of some (input creator, corpus creator) pair |
| Duplicates.Max | filter_duplicates_jsonld.py:44-49 | the maximum of a non-empty list of scores is one of them and bounds them all |
| Duplicates.CreatorSimilarityIsMaximum | filter_duplicates_jsonld.py:44-49 | creator similarity is 0 when either creator list is empty, and otherwise the score of some creator pair that no other pair exceeds |
| Duplicates.ScanCorpus | filter_duplicates_jsonld.py:34-54 | the scan over the corpus, which stops at the first match, reports a duplicate exactly when some corpus record matches |
| Duplicates.FilterDuplicates | filter_duplicates_jsonld.py:24-69 | the new records are, in input order, exactly the input records that are not duplicates, and the duplicates are the rest; both outputs carry the input's `@context` unchanged |
| Duplicates.Partition | filter_duplicates_jsonld.py:27-60 | the two outputs are order-preserving subsequences of the input; together they hold every input record exactly as often as the input does; a record is in exactly one of them |
| Duplicates.EmptyCorpus | filter_duplicates_jsonld.py:34-60 | against an empty corpus nothing is a duplicate and every record is new |
| Duplicates.EmptyCreatorsNeverMatch | filter_duplicates_jsonld.py:44-52 | with a non-negative threshold, a record with no creators, or a corpus record with none, never matches, whatever the titles |
| Duplicates.ThresholdIsStrict | filter_duplicates_jsonld.py:52 | a title score or creator score exactly at the threshold is not a match |
| Duplicates.ThresholdMonotonic | filter_duplicates_jsonld.py:52 | a duplicate under a higher threshold is a duplicate under every lower one |
| Duplicates.MatchesByPair | filter_duplicates_jsonld.py:44-52 | when both creator lists are non-empty, a match means the title score is above the threshold and some single creator pair scores above it too |

## Left out

- Reading and writing files, JSON parsing and serialisation, and the
  completion message printed at `filter_duplicates_jsonld.py:71`. The model
  takes the lines of the export, the input graph and the corpus as values,
  and returns the output documents as values.
- How a file is cut into lines is not modelled. `parse_unimarc_text` takes
  a sequence of lines.
- The module-level script code of both files, which names the files and
  calls the functions, is left out. `upload_to_europeana.py`, which sends
  records to the Europeana API, is not part of this model.
- `similarity`, which lowercases both strings and takes the `difflib` ratio,
  is a parameter `sim` of every duplicate-detection member. Nothing is
  assumed about it: not the [0, 1] range, not symmetry, not reflexivity.
  Scores are exact reals, not floats.
- `\d` is modelled as the ASCII digits, while Python's `\d` also accepts
  other Unicode decimal digits.
- The pattern's `$` can also match before a final newline. That case does
  not arise, because the line is stripped first.
- The JSON-LD input records read only `dc:title` and `dc:creator`; their
  other keys are a map to JSON values, carried along unchanged. The
  corpus records keep only `dcTitle` and `dcCreator`. A key that is absent
  takes the code's default. A `dc:title`, `dc:creator`, `dcTitle` or
  `dcCreator` of another JSON type, such as a title given as a list or
  `null`, is not modelled, and neither is the `TypeError`/`AttributeError`
  it would raise.
- The `KeyError` raised when `@graph`, `@context` or `items` is missing is
  left out. These are fields of the modelled input types.
- `@context` is a string map here; nested context objects are not modelled.
- The default value 0.9 of `threshold` is not modelled: every
  duplicate-detection member takes the threshold as a parameter.
- `filter_duplicates` runs its inner corpus loop inline. The model factors
  that loop out into the method `ScanCorpus`, with the same order and the
  same early exit.
- `convert_to_europeana_jsonld` runs its loop over a tag's contents and its
  chain of tag tests inline. The model factors them out into the methods
  `ConvertField` and `ApplyField`, with the same order and the same branches.
