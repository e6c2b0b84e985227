# onion-service-usability: survey analysis, onion-name recognition and name similarity

This project models the logic in three analysis scripts of the onion-service usability study.

- **Survey records** (`code/analyse_survey_data.py`).
  - A Qualtrics export row becomes a `Response` record of 106 fields.
  - A field whose stripped text matches `^\d,[\d,]*$` becomes the list `field.split(",")`. Every other field stays a string. The model's value type is `Scalar(text) | Choices(codes)`.
  - The first three rows are metadata and are dropped.
  - A `Demographic` is a mutable list of records. The model covers its `filter`, `frac`, `pct`, `remove` and `__iter__`.
  - `prune_data` keeps the finished responses. It then scores them while removing those below 2 of 4 attention checks from the list it iterates over, so the response after each removed one is never scored (see Findings).
  - The model also covers the three sub-populations (graduates, experts, frequent users) that `analyse` selects.
- **Onion names** (`code/analyse-pcap/analyse-pcap.go`). `is_onion_domain` decides whether a DNS name belongs to the `onion` special-use domain (section 2 of RFC 7686).
- **Similar relay names** (`root_data_analysis/apply_similarity.py`). Each input line gives a name: the text before its first comma. Every pair of different names with a Jaro score above 0.90 is then recorded once.

Modules:

- `Results` holds `Option`, `Result` and the error cases.
- `Text` holds Python's and Go's split on one separator character, its join, and Python's `str.strip`.
- `Lists` holds list comprehension as `Keep`, the subsequence order, and Python's `list.remove` as `RemoveFirst`.
- `SurveyParse` holds the field conversion and `parse_data`.
- `Demographics` holds the `Demographic` class, pruning and the sub-populations.
- `OnionDomain` holds the onion-name recogniser.
- `Similarity` holds the name loading and the pair scan.

Fields are addressed by their position in the `Response` record, counted from 0. For example, `finished` is field 6 and `q2_5` is field 27.

A `frac` is an exact real. A Python error that the code lets escape is an `Err` value:

- `ArityMismatch(row)` when `Response(*row)` gets the wrong number of fields;
- `ZeroDivision` for a division by zero.

## Model

| member | source | states |
|---|---|---|
| SurveyParse.ClassifyFieldRoundTrip | code/analyse_survey_data.py:140-142 | A field becomes a list exactly when its stripped text matches `^\d,[\d,]*$`. A list has at least two codes, and joining them with commas gives back the raw field. Any other field is kept verbatim. |
| SurveyParse.IsMultipleChoice | code/analyse_survey_data.py:31 | The pattern `^\d,[\d,]*$`: one ASCII digit, a comma, then only digits and commas. |
| SurveyParse.ClassifyField | code/analyse_survey_data.py:140-142 | One field's conversion: the comma-split raw field when its stripped text matches the pattern, else the field unchanged. ClassifyFieldRoundTrip states what the result is. |
| SurveyParse.ClassifyFieldKeepsText | code/analyse_survey_data.py:31 | The pattern needs a single digit followed by a comma, so "1", "12,3" and "" stay strings. |
| SurveyParse.ClassifyFieldSplitsChoices | code/analyse_survey_data.py:141-142 | "1,4,5" becomes ["1","4","5"], and "1," becomes ["1",""]: every comma splits, empty codes included. |
| SurveyParse.ClassifyFieldSplitsRawText | code/analyse_survey_data.py:141-142 | The stripped text is matched but the raw text is split, so " 1,2 " becomes [" 1","2 "]. |
| SurveyParse.ConvertFields | code/analyse_survey_data.py:140-142 | The in-place loop replaces every field of the row array by its classification. |
| SurveyParse.ReadRow | code/analyse_survey_data.py:136-142 | One csv row, converted in place, equals the field-by-field classification of the row. |
| SurveyParse.ReadResponses | code/analyse_survey_data.py:135-144 | Succeeds iff every row has 106 fields; otherwise it fails at the first row that does not. On success it holds every converted row, in input order. |
| SurveyParse.ParseData | code/analyse_survey_data.py:122-155 | It fails exactly as the read loop does. On success it holds the converted rows from the fourth row on: nothing if there are 3 rows or fewer, otherwise the row count minus 3, in input order. |
| Demographics.Demographic.constructor | code/analyse_survey_data.py:61-63 | A Demographic holds the given responses. |
| Demographics.Matches | code/analyse_survey_data.py:86-91 | `filter`'s test, chosen by the value's shape: membership of the answer for a list, equality for a string. |
| Demographics.Answered | code/analyse_survey_data.py:102-103 | `frac`'s denominator test: the value is not the empty string, so a list always counts. |
| Demographics.Demographic.IterStep | code/analyse_survey_data.py:65-68 | The generator reads the live list by position. It yields the record at position i exactly when i is below the list's current length. |
| Demographics.Demographic.Remove | code/analyse_survey_data.py:74-76 | Removes the first record equal to the element, and only that one. An absent element, the ValueError, leaves the list unchanged. |
| Demographics.Demographic.Filter | code/analyse_survey_data.py:78-94 | A fresh Demographic holding, in original order, exactly the records whose value contains (list) or equals (string) the answer. The receiver is not modified. |
| Demographics.Demographic.Frac | code/analyse_survey_data.py:96-105 | A division by zero iff no record answered (lists always count as answered). Otherwise the filtered count divided by the answered count. |
| Demographics.Demographic.Pct | code/analyse_survey_data.py:107-110 | Fails exactly when `frac` fails. Otherwise it is exactly 100 times `frac`. |
| Demographics.MatchedAreAnswered | code/analyse_survey_data.py:102-105 | For a non-empty answer, the matched records are no more than the answered records. |
| Demographics.FracInUnitInterval | code/analyse_survey_data.py:96-105 | For a non-empty answer, the fraction lies in [0, 1]. |
| Demographics.PctInRange | code/analyse_survey_data.py:107-110 | For a non-empty answer, the percentage lies in [0, 100]. |
| Demographics.EmptyAnswerFracAboveOne | code/analyse_survey_data.py:102-105 | The empty answer also matches records the denominator leaves out, so `frac` can reach 2.0. |
| Demographics.CountCorrect | code/analyse_survey_data.py:187-192 | The number of checks the response answers exactly as the authority does, at most the number of checks. |
| Demographics.Score | code/analyse_survey_data.py:179-192 | A response's score against the four attention checks. ScoreCountsExactMatches gives its closed form. |
| Demographics.ScoreCountsExactMatches | code/analyse_survey_data.py:179-192 | The attention score is at most 4 and counts exact equality only. For q2_5 that is the list ["3","4"] in that order. |
| Demographics.AttentionScore | code/analyse_survey_data.py:186-192 | The inner loop computes the response's attention score. |
| Demographics.AttentionPass | code/analyse_survey_data.py:185-194 | The attention loop as written, from iterator position i: the response at position i of the live list is scored, a failing one is removed by value, and the iterator moves on to i + 1. |
| Demographics.AttentionPassIsSubseq | code/analyse_survey_data.py:185-194 | The survivors of the attention loop are the finished responses with some left out, in order. |
| Demographics.AttentionPassKeepsPassing | code/analyse_survey_data.py:185-194 | No passing response is ever removed. The passing survivors are exactly the passing inputs, in order. |
| Demographics.PruneSkipsSuccessor | code/analyse_survey_data.py:185-194 | Of two distinct failing responses in a row, only the first is removed. The second is never scored and survives although it fails. |
| Demographics.PruneData | code/analyse_survey_data.py:158-199 | Fails with a division by zero iff the input is empty. Otherwise it returns a fresh Demographic: the finished responses after the position-based attention loop. The caller's Demographic is left unchanged. |
| Demographics.IntendedPrune | code/analyse_survey_data.py:159-165 | The intended result holds exactly the responses that are finished and pass the attention checks, in input order. |
| Demographics.PruneDataContainsIntended | code/analyse_survey_data.py:185-194 | The pruning as written keeps every response of the intended pruning, in order. It differs from it only by failing responses, and stays within the finished ones. |
| Demographics.PruneOfUnfinished | code/analyse_survey_data.py:172 | With no response marked finished, nothing survives. |
| Demographics.SelectionExamples | code/analyse_survey_data.py:291-292 | A string is tested by its characters, so "" and "34" are selected by {"3","4"} and "5" is not. A list is tested by its codes. |
| Demographics.SubPopulations | code/analyse_survey_data.py:291-304 | Graduates, experts and frequent users are, in population order, exactly the respondents whose q1_5, q1_6 or q2_3 answer set lies within the allowed codes. |
| Lists.Keep | code/analyse_survey_data.py:102-103 | A comprehension keeps only elements of the list that satisfy the condition, and is no longer than the list. |
| Lists.KeepComplete | code/analyse_survey_data.py:102-103 | Every element that satisfies the condition is kept. |
| Lists.KeepIsSubseq | code/analyse_survey_data.py:102-103 | What a comprehension keeps stays in list order. |
| Lists.RemoveFirst | code/analyse_survey_data.py:76 | `list.remove` cuts out the element at the first position holding the value. |
| Lists.RemoveFirstCount | code/analyse_survey_data.py:76 | `list.remove` shortens the list by one and takes exactly one copy of the value out of its multiset. |
| Lists.KeepIgnoresRemoved | code/analyse_survey_data.py:194 | Removing an element that fails a condition leaves the elements that satisfy it unchanged. |
| Text.Split | code/analyse_survey_data.py:142 | Splitting yields at least one piece, and no piece contains the separator. |
| Text.JoinSplit | code/analyse_survey_data.py:142 | Joining the pieces with the separator gives back the text. |
| Text.SplitJoin | code/analyse_survey_data.py:142 | Splitting the join of separator-free pieces gives back the pieces. |
| Text.Strip | code/analyse_survey_data.py:141 | The result is no longer than the text and, unless empty, starts and ends with a non-whitespace character. |
| Text.StripRemovesOuterWhitespace | code/analyse_survey_data.py:141 | The result is a slice of the text with only whitespace before and after it. Together with Strip's own guarantee, this is exactly `str.strip()`. |
| Text.StripKeepsCharacters | code/analyse_survey_data.py:141 | Stripping adds no character. |
| OnionDomain.RightmostLabelIsOnion | code/analyse-pcap/analyse-pcap.go:41-45 | Some label at position 1 or later is "onion", and every label after it is empty. |
| OnionDomain.IsOnionDomain | code/analyse-pcap/analyse-pcap.go:34-49 | True iff the right-most non-empty label at position 1 or later is "onion". The result does not depend on the counter. |
| OnionDomain.OnionScanMatchesReference | code/analyse-pcap/analyse-pcap.go:36-48 | The label scan agrees with the name, without its trailing dots, ending in ".onion". |
| OnionDomain.TrimTrailingDots | code/analyse-pcap/analyse-pcap.go:41-44 | Removing the trailing dots leaves a text that does not end in a dot and that, followed by the dots, is the name. |
| OnionDomain.OnionNameAccepted | code/analyse-pcap/analyse-pcap.go:45 | "foo.onion" is an onion name. |
| OnionDomain.TrailingDotSkipped | code/analyse-pcap/analyse-pcap.go:42-44 | "foo.onion." is an onion name: the empty label after the dot is skipped. |
| OnionDomain.TrailingDotsSkipped | code/analyse-pcap/analyse-pcap.go:42-44 | "foo.onion.." is an onion name. |
| OnionDomain.FirstLabelIgnored | code/analyse-pcap/analyse-pcap.go:41 | ".onion" is an onion name, but "onion" and "onion." are not, since label 0 is never looked at. |
| OnionDomain.RightmostLabelDecides | code/analyse-pcap/analyse-pcap.go:45 | "a.onion.com" is no onion name: the first non-empty label from the right decides. |
| OnionDomain.LabelCaseMatters | code/analyse-pcap/analyse-pcap.go:45 | "x.ONION" is no onion name: the comparison is case-sensitive. |
| OnionDomain.DotsOnlyRejected | code/analyse-pcap/analyse-pcap.go:36-48 | "" and "..." are no onion names. |
| Similarity.FirstFieldIsLeadingField | root_data_analysis/apply_similarity.py:7 | A name is the longest comma-free prefix of its line: the whole line when it has no comma, otherwise the text before the first comma. |
| Similarity.FirstField | root_data_analysis/apply_similarity.py:7 | `line.split(",")[0]`; FirstFieldIsLeadingField states what it is. |
| Similarity.LoadNames | root_data_analysis/apply_similarity.py:4-8 | One name per line, in file order, duplicates kept. |
| Similarity.ScanFrom | root_data_analysis/apply_similarity.py:12-17 | The scan resumed at outer position i and inner position j. Each step appends (names[i], names[j]) when the score is above 0.90, the names differ, and the pair is not recorded either way round. |
| Similarity.Scan | root_data_analysis/apply_similarity.py:10-18 | The whole scan, from both positions 0 and no pairs. |
| Similarity.ScanPairs | root_data_analysis/apply_similarity.py:10-18 | The nested loop computes the scan over all ordered pairs of positions, outer then inner. |
| Similarity.ScanFromExtends | root_data_analysis/apply_similarity.py:17 | The list of pairs only grows, by appending. |
| Similarity.ScanFromSound | root_data_analysis/apply_similarity.py:15-17 | Every recorded pair (a, b) is two names of the list with a score above 0.90 and a != b. |
| Similarity.ScanFromUnique | root_data_analysis/apply_similarity.py:16-17 | No pair is recorded twice, in either orientation. |
| Similarity.ScanFromCovers | root_data_analysis/apply_similarity.py:12-17 | Every qualifying pair of positions the scan passes ends up recorded, one way round or the other. |
| Similarity.ScanRecordsExactly | root_data_analysis/apply_similarity.py:10-18 | A pair of names is recorded, one way round or the other, iff both are names of the list and they qualify in one order. The result is sound and free of duplicates. |
| Similarity.ScanExample | root_data_analysis/apply_similarity.py:12-17 | For ["alice","alise","bob"] where only alice/alise scores above 0.90, exactly ("alice","alise") is recorded. |

## Left out

- Reading the export is not modelled: the UTF-16 `codecs.open`, the tab-separated `csv` reader, and the exit on an unreadable file. `parse_data` starts from the rows already split into fields.
- Name lookup is not modelled. Fields are addressed by position, and `question < 106` stands in for a valid field name. The `AttributeError` of an unknown name is not modelled.
- The log lines of `parse_data` and `prune_data`, and the `termcolor` output, are not modelled. The one effect kept is the ZeroDivisionError their percentage raises on an empty input.
- Demographics.Demographic.Frac: the division is exact over the reals, not IEEE double arithmetic.
- Similarity: the Jaro score is a parameter `score`; only its comparison against 0.90 is modelled.
- The `count` progress prints and the writing of the output file (`apply_similarity.py` lines 20-23) are not modelled. That file is one line per pair in the order of the scan result, with the score rendered as a float string.
- The packet loop of `analysePcap` and its DNS decoding are not modelled. Only `is_onion_domain` is.
- SurveyParse.IsMultipleChoice: `\d` is taken as the ASCII digits 0-9. Python 3's `\d` on a `str` also accepts other Unicode decimal digits.
- Records and lists are values, so Python's sharing of the same `Response` objects between a Demographic and the one `filter` returns is not represented. Nothing in the core mutates a record, so no behaviour depends on that sharing.
- Demographics.Demographic.Remove reports an absent element by returning false instead of raising ValueError. During pruning the element is always present.
- Behaviours of the code that the model keeps as they are:
  - The choice-list pattern is `^\d,[\d,]*$`, so "1," and "1,,2" are converted too.
  - Converted fields are lists, so the order and duplicates of the codes are kept.
  - Pruning an empty Demographic raises ZeroDivisionError.
  - The attention loop skips the response after each removed one (see Findings).
- The unreachable `len(labels) == 0` branch of `is_onion_domain` has no counterpart, because `Text.Split` always yields at least one label.

## Findings

| source | as written | input that shows it | evidently intended | confidence | as-written member | corrected member |
|---|---|---|---|---|---|---|
| code/analyse_survey_data.py:185-194 | `prune_data` removes failing responses from the list its `for` loop is iterating over. The list iterator advances by position, so the response that slides into the removed one's place is never scored. | Two distinct finished responses `a`, `b`, both scoring below 2, in that order: only `a` is removed, and `b` survives although it fails. | Keep exactly the finished responses with at least 2 correct attention checks. | not executed | Demographics.PruneSkipsSuccessor | Demographics.IntendedPrune |
