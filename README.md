# AIEmailService, modelled and verified in Dafny

This project models the keyword-heuristic engine `AIEmailService` in
`src/services/ai_service.py`. From one email (subject, body, sender address,
date) the engine produces:

- a category and a confidence;
- a priority and tags;
- a sentiment and a summary;
- a suggested reply and an action-required flag;
- action items and a spam verdict.

Each part is a counting or ordering rule over a few constant tables and one
piece of the email:

- the category, priority, tags, sentiment and spam phrases read
  `lower(subject + " " + body)`;
- the summary reads the body as it is, and its fallback the sender address
  and the subject;
- the action items read the lower-cased body alone;
- the all-caps test reads the subject as it is;
- the suggested reply reads the tags and the subject.

The model states those rules as contracts and proves them.

Modules:

- `Wrappers` (`wrappers.dfy`): the `Option` type.
- `EmailModels` (`email_models.dfy`): the records the engine reads and builds.
- `PyStr` (`pystr.dfy`): the Python string operations the engine uses
  (`lower`, `strip`, `isupper`, `in`, `count`, `join`), on ASCII.
- `Keywords` (`keywords.dfy`): the generator sums
  `sum(1 for k in kws if k in text)` and `any(...)`, and sub-lists
  (subsequences).
- `Sentences` (`sentences.dfy`): `re.split(r'[.!?]+', s)`.
- `ActionPatterns` (`action_patterns.dfy`): `re.findall` for the five
  action patterns `<kw>\s+(.+?)(?:\.|$)`, as a scanner that tries
  alternatives in the order Python's backtracking matcher does.
- `AiService` (`ai_service.dfy`): the tables and the nine operations.
- `AiProperties` (`properties.dfy`): properties that relate several
  operations or several calls, and the sample emails of
  `tests/test_ai_service.py`.

The service holds only constant tables, so it is a module, not a class.
The loops of the source are methods with loop invariants:

- the score loop of `classify_email` and the `max` call;
- the nested pattern and match loops of `_extract_action_items`;
- the indicator total of `detect_spam`: a loop for the spam-phrase sum, then
  the three checks in sequence.

`_extract_tags` has no loop: it appends to a local list in four checks in
sequence. `AiService.ExtractTags` is a method written the same way, in
straight-line code.

The category dict of `classify_email` is a sequence indexed like the table,
in the dict's insertion order. The expression-only parts are functions.
Each method is proved against a specification function or predicate, and
the lemmas are about that.

Behaviour of the code worth knowing:

- Keyword scores, the urgent count, the sentiment counts and the spam-phrase
  count are numbers of distinct list entries present (`k in text`), not
  numbers of occurrences.
- The summary takes the first two fragments of the split, then drops the
  blank ones.
- The fallback summary is never cut. `AiProperties.FallbackCanExceed200`
  shows that it can be longer than 200 characters; only summaries built from
  sentences are cut to 200.
- The all-caps subject test is Python's `isupper`: at least one upper-case
  letter and no lower-case one. Digits, spaces and punctuation are allowed.
- `date` is a required field of `EmailMessage`, so the priority always
  compares it with the clock.

## Model

| member | source | states |
|---|---|---|
| AiService.TablesDistinct | src/services/ai_service.py:20-34 | no keyword list repeats an entry, and the tag rules are named by the tag vocabulary in order |
| AiService.EmailText | src/services/ai_service.py:43 | the analysed text is the lower-cased subject, one space, then the lower-cased body |
| AiService.CategoryScore | src/services/ai_service.py:47-49 | the score of a category: the number of distinct keywords of its list that occur in the text |
| AiService.IsFirstMax | src/services/ai_service.py:52-53 | the category `max(..., key=...)` picks: a highest score, and every earlier category in insertion order scores strictly less |
| AiService.IsCategoryOf | src/services/ai_service.py:46-62 | the category and confidence of a text: "general" and 0.5 when every category scores 0, otherwise the first category of highest score and the confidence of that score |
| AiService.AreTagsOf | src/services/ai_service.py:99-111 | the tags of a text: a sub-list of the tag vocabulary, in its order, holding a tag iff one of its trigger words occurs |
| AiService.IsClassificationOf | src/services/ai_service.py:40-75 | a classification of an email at a clock: category and confidence, priority and tags as the three parts above say |
| AiService.IsReply | src/services/ai_service.py:83 | the text starts with "re:" or with "fwd:" |
| AiService.Confidence | src/services/ai_service.py:62 | `min(max_score / 10, 1.0)` lies in [0, 1], is 1 exactly from 10 hits on, and is max_score/10 below that |
| AiService.FirstMaxIndex | src/services/ai_service.py:52-53 | the index returned holds a largest score, and every earlier index holds a strictly smaller one (ties go to the first) |
| AiService.ClassifyEmail | src/services/ai_service.py:40-75 | the result is the classification its specification describes: category by first highest distinct-keyword score or "general"/0.5 when nothing scores, priority, and tags; confidence in [0, 1]; tags without repeats |
| AiService.DeterminePriority | src/services/ai_service.py:77-95 | "high" iff at least two distinct urgent keywords, or one and under an hour old; "medium" iff not high and a reply prefix or exactly one keyword; otherwise "low" |
| AiService.TagsFrom | src/services/ai_service.py:99-111 | the names of the tag rules whose trigger words occur, in table order: the result of the conditional appends |
| AiService.TagsFromAreTags | src/services/ai_service.py:99-111 | filtering a table with distinct names keeps a sub-list of the names in order, holding a name iff one of its trigger words occurs |
| AiService.TagsFromTable | src/services/ai_service.py:102-109 | the filtered tag table is the contributions of the four checks in their order |
| AiService.ExtractTags | src/services/ai_service.py:97-111 | the tags are the tag vocabulary filtered by "some trigger word occurs", in order and without repeats |
| AiService.NonBlank | src/services/ai_service.py:148 | the kept fragments are at most as many as the input and each is non-empty with no whitespace at either end; which ones are kept is NonBlankMembers |
| AiService.NonBlankSlices | src/services/ai_service.py:147-148 | kept fragments from fragments without a terminator have none |
| AiService.StripKeepsNoTerminator | src/services/ai_service.py:148 | stripping cannot bring a terminator into a fragment |
| AiService.NonBlankMembers | src/services/ai_service.py:148 | a string is kept exactly when it is the non-blank stripped form of one of the fragments, and a non-blank first fragment is kept first |
| AiService.SummarySentencesMembers | src/services/ai_service.py:146-148 | the summary sentences are exactly the non-blank stripped fragments among the first two of the split of the stripped body, a non-blank first fragment first |
| AiService.Kept | src/services/ai_service.py:148 | what the comprehension keeps of one fragment: nothing when it strips to nothing, otherwise its stripped form |
| AiService.SummarySentencesExact | src/services/ai_service.py:146-148 | the summary sentences, entry by entry: what the first fragment of the split of the stripped body keeps, then what the second keeps, so a sentence appears once per fragment that yields it |
| AiService.SummarySentences | src/services/ai_service.py:146-148 | at most two sentences are kept, each non-empty and free of `.`, `!` and `?`; which ones is SummarySentencesMembers |
| AiService.FallbackSummary | src/services/ai_service.py:151 | the fallback starts with "Email from ", is 23 characters longer than the sender address and subject together, and ends with the subject |
| AiService.GenerateSummary | src/services/ai_service.py:143-157 | no usable sentence gives exactly the fallback text; otherwise the joined sentences plus "." are returned when at most 200 long, and cut to 197 characters plus "..." (200 in total) otherwise |
| AiService.AnalyzeSentiment | src/services/ai_service.py:159-180 | "positive" iff more distinct positive words than negative ones are present, "negative" iff the reverse, "neutral" iff equal (0 to 0 included) |
| AiService.FirstTemplate | src/services/ai_service.py:196-198 | nothing iff no tag has a template; otherwise the template of the first tag that has one |
| AiService.DefaultResponse | src/services/ai_service.py:201 | the default reply starts with the fixed 36-character opening, has the subject right after it and a fixed 44-character ending |
| AiService.SuggestResponse | src/services/ai_service.py:182-201 | the template of the first templated tag in stored order, or the default reply naming the subject when no tag has one |
| AiService.Take | src/services/ai_service.py:219 | `ms[:n]` is a prefix of ms, at most n long, and all of ms when ms is short enough |
| AiService.KeepItems | src/services/ai_service.py:219-221 | the kept captures are stripped, each strictly between 10 and 100 long, and no more than the captures |
| AiService.KeepItemsStep | src/services/ai_service.py:219-221 | one more capture adds its stripped form exactly when it passes the length filter |
| AiService.KeepItemsFromCaptures | src/services/ai_service.py:220-221 | every kept item is the stripped form of one of the captures |
| AiService.KeepItemsKeepsPassing | src/services/ai_service.py:220-221 | every capture whose stripped form is strictly between 10 and 100 long is kept, stripped |
| AiService.CaptureIsActionCapture | src/services/ai_service.py:210-218 | a stripped capture of one of the five patterns is an action capture |
| AiService.MatchItems | src/services/ai_service.py:218-221 | one pattern contributes at most three items, each passing the length filter |
| AiService.FirstThreeMatches | src/services/ai_service.py:218-221 | the items of one pattern are the stripped forms of its first three matches that pass the length filter: none comes from a later match, and every passing one of the first three is there, so captures filtered out still use up the three |
| AiService.PatternItems | src/services/ai_service.py:217-221 | every item the first n patterns contribute is stripped and strictly between 10 and 100 long |
| AiService.PatternItemsFromPatterns | src/services/ai_service.py:217-221 | every item of the first n patterns is contributed by one of them |
| AiService.MatchItemsAreCaptures | src/services/ai_service.py:210-221 | what a pattern contributes are stripped captures of that pattern in the lower-cased body |
| AiService.ActionItemsOf | src/services/ai_service.py:203-223 | at most five items, a prefix of the items in pattern-then-match order (all of them when fewer than five), each a stripped capture of one of the five patterns, strictly between 10 and 100 long |
| AiService.ExtractActionItems | src/services/ai_service.py:203-223 | the nested loops return exactly the specified action items |
| AiService.AppendItems | src/services/ai_service.py:219-221 | the inner loop appends the filtered, stripped captures to what was found, in order |
| AiService.SpamScore | src/services/ai_service.py:229-255 | the indicator total is at least the number of distinct spam phrases present and at most three more |
| AiService.DetectSpam | src/services/ai_service.py:225-257 | spam iff the indicator total reaches 3: distinct spam phrases present, one point for more than three `!` or more than three `?`, one for an upper-case subject longer than 10, one for more than three "http"; so a total of exactly 2 is never spam |
| AiService.AnalyzeEmail | src/services/ai_service.py:113-141 | the analysis carries the email id, the classification, summary, sentiment, reply and action items specified above, and action_required iff "action-required" is a tag or the priority is "high" |
| AiProperties.ConfidenceMonotone | src/services/ai_service.py:62 | confidence never decreases as the top score grows |
| AiProperties.FirstMaxUnique | src/services/ai_service.py:52 | only one category is the first of the highest scores |
| AiProperties.TagsUnique | src/services/ai_service.py:99-111 | two tag lists that both fit a text are equal |
| AiProperties.ClassificationUnique | src/services/ai_service.py:40-75 | the classification, as specified, is determined by the email and the clock |
| AiProperties.GeneralIffNothingScores | src/services/ai_service.py:56-58 | the category is "general" iff no category keyword occurs, and then the confidence is 0.5 |
| AiProperties.LaterClockNeverRaisesPriority | src/services/ai_service.py:86-95 | evaluating later never raises the priority |
| AiProperties.QuestionMarkNeedsResponse | src/services/ai_service.py:108-109 | a "?" alone yields the needs-response tag |
| AiProperties.FiringRuleTags | src/services/ai_service.py:102-109 | a tag whose trigger word occurs is among the tags that fit the text |
| AiProperties.TemplatesCoverTags | src/services/ai_service.py:188-193 | every tag the tag extractor can emit has a template |
| AiProperties.FirstTagDecidesResponse | src/services/ai_service.py:196-198 | with at least one tag, the reply is the template of the first tag |
| AiProperties.NoTagsDefaultResponse | src/services/ai_service.py:201 | with no tags, the reply is the default one naming the subject |
| AiProperties.BlankBodyFallsBack | src/services/ai_service.py:146-151 | a body of whitespace only gives the fallback summary |
| AiProperties.FallbackCanExceed200 | src/services/ai_service.py:150-155 | the fallback is not cut, so an empty body and a subject over 200 characters give a summary over 200 characters |
| AiProperties.OneSentenceSummary | src/services/ai_service.py:146-157 | a body that is one sentence without a terminator, shorter than 200 characters once stripped, gives that sentence, stripped, with a period |
| AiProperties.PresentAtLeast | src/services/ai_service.py:80 | every keyword known to occur counts once toward the distinct-keyword total |
| AiProperties.SampleEmailIsHighPriority | tests/test_ai_service.py:16-42 | the sample email is high priority at any clock |
| AiProperties.TwoUrgentWordsAreHigh | src/services/ai_service.py:90-91 | two distinct urgent keywords make an email high priority at any time |
| AiProperties.MeetingEmailIsTagged | tests/test_ai_service.py:127-141 | the meeting email is tagged "meeting" |
| AiProperties.SpamTestEmailIsSpam | tests/test_ai_service.py:59-73 | the spam test email reaches the threshold of 3 indicators |
| AiProperties.EmptyEmailText | src/services/ai_service.py:43 | an email with empty subject and body is analysed as the text " " |
| AiProperties.SpaceScoresNothing | src/services/ai_service.py:48-80 | the text " " scores nothing: no category keyword, urgent keyword, sentiment word or spam phrase occurs in it |
| AiProperties.SpaceFiresNoTag | src/services/ai_service.py:102-109 | no trigger word of the tag table occurs in " " |
| AiProperties.NoTagsFit | src/services/ai_service.py:99-111 | when no trigger word occurs, the only tag list that fits is the empty one |
| AiProperties.EmptyEmailClassification | src/services/ai_service.py:40-111 | an email with empty subject and body is "general" with confidence 0.5, priority "low" and no tags, at any clock |
| AiProperties.EmptyEmailAnalysis | src/services/ai_service.py:143-257 | an email with empty subject and body is neutral, has no spam indicator and gets the fallback summary |
| AiProperties.FirstPleaseFits | tests/test_ai_service.py:76-90 | in the lower-cased body of the action-item test email, "please" at index 0 matches with the capture "review the document" |
| AiProperties.FirstPleaseCapture | src/services/ai_service.py:210-218 | the first match of the `please` pattern in that body captures "review the document" |
| AiProperties.KeepsFirst | src/services/ai_service.py:219-221 | a first capture that passes the length filter is kept |
| AiProperties.FirstPatternFirst | src/services/ai_service.py:217-221 | the items of the first pattern come first among the items of all patterns |
| AiProperties.ActionEmailHasItems | tests/test_ai_service.py:76-90 | the action-item test email yields at least one action item |
| Keywords.CountPresent | src/services/ai_service.py:48 | the generator sum is at most the length of the keyword list |
| Keywords.CountPresentIsCardinality | src/services/ai_service.py:48 | on a list without repeats, the generator sum is the number of distinct keywords present |
| Keywords.AnyPresent | src/services/ai_service.py:102-108 | `any(w in text for w in words)`: some entry of the list occurs in the text |
| Keywords.NoneOfLongerKeywords | src/services/ai_service.py:48 | a text shorter than every keyword scores nothing |
| Keywords.SubsequenceMembers | src/services/ai_service.py:99-111 | every entry of a sub-list is an entry of the list |
| Keywords.SubsequenceDistinct | src/services/ai_service.py:99-111 | a sub-list of a list without repeats has none |
| Keywords.SubsequenceDeterminedByMembers | src/services/ai_service.py:99-111 | over a list without repeats, a sub-list is fixed by the entries it keeps |
| PyStr.LowerChar | src/services/ai_service.py:43 | lower-casing a character maps A-Z to a-z and leaves every other character alone |
| PyStr.IsSpace | src/services/ai_service.py:146-148 | the ASCII whitespace of `str.strip` and of `\s` in the action patterns: space, tab to carriage return, and U+001C to U+001F |
| PyStr.Lower | src/services/ai_service.py:43 | `str.lower()` keeps the length and leaves no upper-case letter |
| PyStr.Contains | src/services/ai_service.py:48 | `p in s`: p is a prefix of s or of one of its suffixes, as `PyStr.ContainsIffOccurs` states |
| PyStr.Count | src/services/ai_service.py:246-254 | `s.count(p)` counts non-overlapping occurrences; for a non-empty p, at most the length of s divided by the length of p |
| PyStr.IsUpper | src/services/ai_service.py:250 | `str.isupper()`: some upper-case letter and no lower-case one |
| PyStr.StripLeft | src/services/ai_service.py:146-148 | `lstrip` is no longer than its input and does not start with whitespace |
| PyStr.StripRight | src/services/ai_service.py:146-148 | `rstrip` is no longer than its input and does not end with whitespace |
| PyStr.ContainsIffOccurs | src/services/ai_service.py:48 | `p in s` holds iff p occurs at some index of s |
| PyStr.NotContainsLonger | src/services/ai_service.py:48 | a string never contains a longer one |
| PyStr.CountCharIsMultiplicity | src/services/ai_service.py:246 | counting a one-character pattern counts that character |
| PyStr.StripLeftIsSuffix | src/services/ai_service.py:146 | what `lstrip` keeps is a suffix, and everything before it is whitespace |
| PyStr.StripRightIsPrefix | src/services/ai_service.py:146 | what `rstrip` keeps is a prefix, and everything after it is whitespace |
| PyStr.Strip | src/services/ai_service.py:146 | the stripped string has no whitespace at either end |
| PyStr.StripEmptyIffBlank | src/services/ai_service.py:148-150 | stripping leaves nothing iff the string is all whitespace |
| PyStr.StripIsSlice | src/services/ai_service.py:146 | the stripped string is one slice of the input with only whitespace around it |
| PyStr.StripIdempotent | src/services/ai_service.py:148 | stripping twice is stripping once |
| PyStr.Join | src/services/ai_service.py:153 | joining nothing gives "", one part gives that part, and the first part always starts the result |
| Sentences.FirstTerminator | src/services/ai_service.py:147 | the first terminator is at the index returned, and none comes before it |
| Sentences.DropTerminators | src/services/ai_service.py:147 | a whole run of terminators is dropped, and only terminators |
| Sentences.Split | src/services/ai_service.py:147 | there is at least one fragment, no fragment holds a terminator, and the first is the text before the first terminator; SplitRoundTrip and SplitInnerNonEmpty fix the others |
| Sentences.SplitRoundTrip | src/services/ai_service.py:147 | some non-empty runs of terminators, one between each pair of neighbouring fragments, glue the fragments back into exactly the text |
| Sentences.SplitInnerNonEmpty | src/services/ai_service.py:147 | every fragment but the first and the last is non-empty, so each run between fragments is a whole run of terminators, as `[.!?]+` matches |
| Sentences.FirstRun | src/services/ai_service.py:147 | the first run of terminators is non-empty, holds only terminators, and the split resumes right after it |
| Sentences.RemoveTerminators | src/services/ai_service.py:147 | the result holds no terminator |
| Sentences.SplitLosesOnlyTerminators | src/services/ai_service.py:147 | gluing the fragments back together gives the text with its terminators removed |
| Sentences.RemoveTerminatorsAt | src/services/ai_service.py:147 | removing terminators keeps a terminator-free head and drops the run that follows it |
| ActionPatterns.ScanEnd | src/services/ai_service.py:210-214 | the lazy capture followed by a period or the end settles on the first end that fits, and finds none exactly when none fits |
| ActionPatterns.MatchEnd | src/services/ai_service.py:210-214 | after a capture ending at e, the period-or-end group consumes the period at e when there is one, and nothing otherwise |
| ActionPatterns.Backtrack | src/services/ai_service.py:210-214 | `\s+` gives back characters one at a time: the capture chosen starts as late as any that fits, and none is found exactly when none fits |
| ActionPatterns.SpaceRunEnd | src/services/ai_service.py:210-214 | the end of a whitespace run: everything before is whitespace, the next character is not |
| ActionPatterns.MatchAt | src/services/ai_service.py:210-214 | at a position the pattern matches iff some capture fits there; the capture returned starts as late as any fitting one and, for that start, ends as early as any |
| ActionPatterns.FindFrom | src/services/ai_service.py:218 | every capture of the scan is non-empty and holds no newline |
| ActionPatterns.FindFromCaptures | src/services/ai_service.py:218 | everything `re.findall` returns is a capture of the pattern in the text |
| ActionPatterns.FindFromEmptyIff | src/services/ai_service.py:218 | the search from p finds nothing exactly when the pattern matches at no position from p to the end |
| ActionPatterns.FindFromLeftmost | src/services/ai_service.py:218 | when q is the leftmost position from p where the pattern matches, the search returns the capture matched at q first and then resumes after that match (after a consumed period) |
| ActionPatterns.FindAll | src/services/ai_service.py:218 | `re.findall` is the search from position 0, so FindFromEmptyIff and FindFromLeftmost apply to it; every capture is non-empty |

## Left out

- Mail transport (IMAP, SMTP, MIME), the HTTP routes, the configuration and
  the logger. src/services/email_service.py, src/api/routes.py, main.py and
  src/utils are not part of this model.
- Validation of the pydantic records. Only the fields the engine reads are
  modelled, and `recipients`, `folder` and `html_body` are not.
- The wall clock: `datetime.now()` is the parameter `now`, and dates are
  whole seconds.
- Floating point: the confidence is a `real`, so `max_score / 10` is exact.
- Unicode: lower-casing, `isspace` and `isupper` cover ASCII only.
- Regular expressions other than the five fixed action patterns and the
  sentence split. Each of these is modelled by its own scanner, not by a
  general regex engine.
- The dead `total_keywords` sum in `classify_email`, which is never read.
- The test expectations that need keywords proved absent: the "work" and
  "promotions" categories and sample-email-not-spam. Each needs many
  keywords, spread over several tables, proved absent from a long literal
  text (for "work", that no other category beats its score; for not-spam,
  that at most two spam phrases occur and no other indicator holds). Every
  absence is a substring search over the whole text, which is too costly for
  the verifier here. The expectations that need only a presence are proved: the
  sample email's priority, the meeting tag, the spam verdict and the action
  items.
- DeterminePriority: `date` stands for a naive datetime in whole seconds.
  An aware date makes `datetime.now() - email.date` at
  src/services/ai_service.py:86 raise a TypeError; that error is not
  modelled.
