# Online exam platform: plagiarism engine, judge and client rules in Dafny

This project models the decision logic of an online exam platform with
proctoring and coding questions.

On the server side it models:

- **The plagiarism engine.** This covers the Levenshtein distance, the
  similarity percentage, code normalisation, the pairwise detector and its
  statistics.
- **The coding judge.** This covers the language table, the request gates,
  the forbidden-pattern check, the choice of the sample case for a run, the
  per-case verdicts and all-or-nothing scoring of a submission, and the
  redaction of hidden test cases.
- **The admin statistics.** This covers the cheating-risk score, the
  high-risk count and the average, highest and lowest scores.

On the client side it models:

- the risk bands, the colour badges, the PDF report layout and the
  detection guard of the admin dashboard;
- the keyword responder and the send guard of the chatbot;
- the registration form check;
- the exam page: clock, navigation, countdown, face-count debounce and
  fallback score;
- the test-case list editor of the question form;
- the language handling and violation reporting of the code editor;
- the countdown of the warning popup.

Everything is immutable data and pure functions, with one exception:
`Levenshtein.LevenshteinDistance` fills a 2-D array, and its loop
invariants tie it to the recursive edit distance `Levenshtein.Dist`.

The following modelling choices apply throughout:

- **Percentages are integers in hundredths.** Similarity 87.5 % is 8750, and
  `Similarity.Full` is 10000. JavaScript's `Math.round` becomes
  `Common.RoundHalfUp`.
- **Strings are `seq<char>`.** `toLowerCase` folds ASCII letters only, and
  `\s` is the JavaScript white-space set `Common.IsJsSpace`.
- **Outside services become parameters.** Judge0, the server's registration
  answer and the remote chatbot assistant are all function or value
  parameters. A database lookup becomes an `Option` argument.

Modules, one per source concern:

- `Common`: characters, strings, rounding and decimal digits.
- `Levenshtein`, `Similarity` and `Plagiarism`: the plagiarism engine.
- `Security`: the forbidden-pattern list and its small pattern matcher.
- `Judge`: grading.
- `Risk`: the admin statistics.
- `Dashboard`: the admin dashboard.
- `Chatbot`, `Register`, `ExamPage`, `QuestionForm`, `Editor` and
  `WarningPopup`: the client pages and components.

## Model

| member | source | states |
|---|---|---|
| Levenshtein.Min3 | backend/utils/plagiarismDetector.js:33-37 | the minimum of the three neighbouring costs is one of them and no larger than any |
| Levenshtein.LevenshteinDistance | backend/utils/plagiarismDetector.js:12-43 | the DP table with first row and column 0..n and the match / 1+min(del,ins,sub) recurrence returns exactly the recursive edit distance |
| Levenshtein.DistCell | backend/utils/plagiarismDetector.js:28-39 | each cell of the table obeys the recurrence on the two prefixes |
| Levenshtein.DistIdentity | backend/utils/plagiarismDetector.js:12-43 | lev(s,s)=0, and the distance to or from the empty string is the other length |
| Levenshtein.DistSymmetric | backend/utils/plagiarismDetector.js:12-43 | lev(a,b)=lev(b,a) |
| Levenshtein.DistBounds | backend/utils/plagiarismDetector.js:12-43 | the length difference is at most lev(a,b), which is at most the longer length |
| Levenshtein.DistZeroIffEqual | backend/utils/plagiarismDetector.js:12-43 | the distance is 0 exactly when the strings are equal |
| Similarity.CalculateSimilarity | backend/utils/plagiarismDetector.js:52-65 | the result is at most 100 %; 0 when either string is empty, including both; 100 % for identical non-empty strings |
| Similarity.SimilarityFromDistance | backend/utils/plagiarismDetector.js:56-64 | for non-empty inputs the result is (L-d)/L rounded to hundredths of a percent, with L the longer length and d the distance |
| Similarity.SimilaritySymmetric | backend/utils/plagiarismDetector.js:56-61 | swapping the arguments does not change the similarity, including the equal-length case where the roles swap |
| Similarity.StripLineComments | backend/utils/plagiarismDetector.js:79 | removing `//` or `#` to line end only deletes characters (the output is a subsequence of the input), and the marker no longer occurs in the output |
| Similarity.StripLineUntilMarker | backend/utils/plagiarismDetector.js:79 | text in which no marker starts is kept unchanged in front of whatever follows |
| Similarity.StripLineAtComment | backend/utils/plagiarismDetector.js:79 | a comment at the start is removed up to its line terminator; the terminator and the later lines are kept and stripped in turn |
| Similarity.StripLineCommentLine | backend/utils/plagiarismDetector.js:79 | `.*$` with the `m` flag: the code before the first marker, the line terminator that ends the comment and every later line survive; only the comment itself goes |
| Similarity.FindCommentClose | backend/utils/plagiarismDetector.js:82 | the lazy match finds the first `*/`, or reports that there is none |
| Similarity.StripBlockComments | backend/utils/plagiarismDetector.js:82 | removing block comments only deletes characters: the output is a subsequence of the input |
| Similarity.StripBlockNoOpener | backend/utils/plagiarismDetector.js:82 | text with no `/*` is kept whole, even with a stray `*/` in it |
| Similarity.StripBlockPlainPrefix | backend/utils/plagiarismDetector.js:82 | text without '/' opens no comment and is kept in front of whatever follows |
| Similarity.FindCloseAfter | backend/utils/plagiarismDetector.js:82 | the lazy `[\s\S]*?` stops at the first `*/`: with none inside b, the close is found right after b |
| Similarity.StripBlockRemovesComment | backend/utils/plagiarismDetector.js:82 | a closed comment `/*b*/` after text a without an opener is removed with its delimiters: a + "/*" + b + "*/" + c becomes a followed by the stripped c |
| Similarity.StripBlockUnclosed | backend/utils/plagiarismDetector.js:82 | text with no `*/` is kept whole, including an unclosed `/*` |
| Similarity.RemoveWhitespace | backend/utils/plagiarismDetector.js:88 | the output is a subsequence of the input with no white space left, and every other character of the input is kept |
| Similarity.RemoveWhitespaceConcat | backend/utils/plagiarismDetector.js:88 | removing white space from a concatenation is removing it from each part |
| Similarity.PreprocessCode | backend/utils/plagiarismDetector.js:73-94 | empty input gives ''; the output is a subsequence of the lower-cased input, no longer than it, and contains no white space, no '#' and no upper-case ASCII letter |
| Similarity.PreprocessLineCommentThenCode | backend/utils/plagiarismDetector.js:73-94 | a `//` comment ends at its line: code, a comment, a line terminator and more code normalise to the normal form of the code before the comment followed by the normal form of the later lines |
| Similarity.PreprocessFixesPlainText | backend/utils/plagiarismDetector.js:73-94 | text without white space, '/', '#' or capitals is already normal: preprocessing leaves it unchanged |
| Similarity.PreprocessWithoutMarkers | backend/utils/plagiarismDetector.js:73-94 | text with no '/' and no '#' has no comment to strip: its normal form is the lower-cased text without white space |
| Similarity.PreprocessDropsLineComment | backend/utils/plagiarismDetector.js:73-94 | a trailing `//` comment is dropped: code a followed by `//` and the rest of the line normalises like a alone |
| Similarity.PreprocessDropsBlockComment | backend/utils/plagiarismDetector.js:73-94 | a closed `/* */` comment is dropped: a, the comment, then c normalise like a + c |
| Similarity.PreprocessNotIdempotent | backend/utils/plagiarismDetector.js:79-88 | preprocessing is not idempotent: '/ /x' becomes '//x', which a second pass turns into '' |
| Similarity.CompareCodes | backend/utils/plagiarismDetector.js:103-110 | at most 100 %; 100 % when both codes normalise to the same non-empty text; 0 when either compared text is empty |
| Similarity.CompareCodesSymmetric | backend/utils/plagiarismDetector.js:103-110 | comparison is symmetric in the two codes |
| Similarity.CompareCodesSameNormalForm | backend/utils/plagiarismDetector.js:103-107 | two codes with the same non-empty normal form score 100 % when normalisation is on |
| Plagiarism.PairsFromCount | backend/utils/plagiarismDetector.js:122-123 | the nested loops from row i visit (n-i)(n-i-1)/2 pairs |
| Plagiarism.AllPairsCount | backend/utils/plagiarismDetector.js:122-123 | the nested loops visit n(n-1)/2 pairs |
| Plagiarism.AllPairsComplete | backend/utils/plagiarismDetector.js:122-123 | every pair i<j is visited |
| Plagiarism.ScanSound | backend/utils/plagiarismDetector.js:124-128 | no kept pair has a key that was processed before the scan, and no two kept pairs share a key |
| Plagiarism.ScanFirst | backend/utils/plagiarismDetector.js:124-128 | every kept pair is the first candidate of the scan with its "userId-userId" key |
| Plagiarism.ScanComplete | backend/utils/plagiarismDetector.js:124-135 | a pair at or above the threshold is kept when its key was not processed earlier |
| Plagiarism.SortDesc | backend/utils/plagiarismDetector.js:158 | the result is sorted by non-increasing similarity and is a permutation of the input |
| Plagiarism.DetectPlagiarism | backend/utils/plagiarismDetector.js:118-158 | the result is sorted by non-increasing similarity; every reported pair is flagged, records the threshold, has similarity at or above it and is built from a visited pair |
| Plagiarism.DetectReportsPairs | backend/utils/plagiarismDetector.js:122-153 | every reported pair comes from submissions i<j |
| Plagiarism.DetectSound | backend/utils/plagiarismDetector.js:118-158 | at most n(n-1)/2 pairs are reported, with distinct user keys |
| Plagiarism.DetectReportsFirstPairs | backend/utils/plagiarismDetector.js:124-153 | the first pair with a given key is reported when it reaches the threshold |
| Plagiarism.DetectReportsOnlyFirstPairs | backend/utils/plagiarismDetector.js:122-153 | every reported pair is built from the first visited pair i<j with its user key; later pairs with a seen key are skipped |
| Plagiarism.InsertDesc | backend/utils/plagiarismDetector.js:158 | inserting into a list sorted by non-increasing similarity keeps it sorted and adds exactly the new pair |
| Plagiarism.MaxOf | backend/utils/plagiarismDetector.js:198 | the highest similarity bounds every pair and is one of them; 0 when there are no pairs |
| Plagiarism.FlaggedPercentage | backend/utils/plagiarismDetector.js:172-174 | the flagged share flagged/total rounded half-up to hundredths of a percent: 2(10000·flagged) - total < 2(total·r) ≤ 2(10000·flagged) + total; at most 100 %; 0 with no comparisons |
| Plagiarism.Average | backend/utils/plagiarismDetector.js:188-190 | the mean rounded half-up: 2·sum - n < 2(n·r) ≤ 2·sum + n; at most the maximum; 0 with no comparisons |
| Plagiarism.AverageOfConstant | backend/utils/plagiarismDetector.js:188-190 | when all pair similarities are equal, the average is that similarity |
| Plagiarism.HighestSimilarity | backend/utils/plagiarismDetector.js:180-198 | the highest similarity is at least that of every pair i<j and is attained by one of them; 0 with fewer than two submissions |
| Plagiarism.GetPlagiarismStats | backend/utils/plagiarismDetector.js:167-201 | the report has n submissions, n(n-1)/2 comparisons and the detector's pairs (no more than the comparisons); percentage ≤ 100 %; average ≤ highest ≤ 100 %; the highest is `HighestSimilarity`, the largest similarity of any pair i < j, attained by one (line 198); fewer than two submissions give all zeros |
| Plagiarism.StatsRounding | backend/utils/plagiarismDetector.js:170-190 | with comparisons, the flagged percentage and the average similarity are the exact ratios rounded half-up to hundredths |
| Plagiarism.HighestBoundsPairs | backend/utils/plagiarismDetector.js:180-198 | the highest similarity is at least that of every flagged pair |
| Security.SearchIff | backend/controllers/codingController.js:51-52 | an unanchored pattern test succeeds exactly when the pattern matches at some position |
| Security.LiteralSearchIsContains | backend/controllers/codingController.js:19-47 | a pattern of plain text matches exactly when the code contains the text |
| Security.FirstMatch | backend/controllers/codingController.js:51-55 | finds the first pattern in list order that matches, or reports that none does |
| Security.Validate | backend/controllers/codingController.js:50-68 | valid iff no pattern matches; otherwise the reason names the first matching pattern's source |
| Security.ValidateCode | backend/controllers/codingController.js:50-68 | the same over the fixed forbidden list; the language plays no part, since the loop heuristic only logs |
| Security.CallDetected | backend/controllers/codingController.js:19-47 | `name`, any white space, then "(" is caught by the call patterns |
| Security.RefusedWhenDetected | backend/controllers/codingController.js:51-54 | any matching forbidden pattern makes the code invalid |
| Security.FopenRefused | backend/controllers/codingController.js:45 | code containing `fopen` with white space before "(" is refused |
| Security.EvalSuffixRefused | backend/controllers/codingController.js:32 | `eval(` inside a longer word ("retrieval(") is refused too, because that pattern has no word boundary |
| Judge.LanguageId | backend/controllers/codingController.js:11-16 | every supported language has a non-zero Judge0 id |
| Judge.LanguageIdInjective | backend/controllers/codingController.js:11-16 | distinct languages have distinct ids |
| Judge.ParseLanguage | backend/controllers/codingController.js:11-16 | exactly the four names javascript, python, java and cpp are languages |
| Judge.ParseLanguageRoundTrip | backend/controllers/codingController.js:11-16 | parsing a language's name gives the language back |
| Judge.InheritedKeyPassesGate | backend/controllers/codingController.js:146-147 | as written, "toString" passes the language gate although it is no language |
| Judge.LanguageGateIff | backend/controllers/codingController.js:146-149 | the corrected gate admits exactly the names of the four languages |
| Judge.Gates | backend/controllers/codingController.js:140-155 | missing field gives 400, then unsupported language gives 400, then a forbidden pattern gives 403 "Code contains forbidden patterns" with the first matching pattern as reason; admitted iff all pass |
| Judge.Verdict | backend/controllers/codingController.js:187-196 | a visible case is Accepted iff trimmed outputs agree, else Wrong Answer; a hidden case is Accepted iff Judge0 said Accepted, else Failed |
| Judge.SubmitCase | backend/controllers/codingController.js:272-299 | a submitted case records its id, input and stdout; hidden expected output reads "Hidden"; status is the verdict |
| Judge.FirstVisible | backend/controllers/codingController.js:164 | the first non-hidden case, or none when every case is hidden |
| Judge.CountsPartition | backend/controllers/codingController.js:205-209 | accepted and not-accepted counts add up to the number of results |
| Judge.RunSummary | backend/controllers/codingController.js:205-209 | passed + failed = total = number of results |
| Judge.RunCode | backend/controllers/codingController.js:136-210 | gate refusals pass through; a missing question gives 404; no visible case gives 400; otherwise exactly the first visible case is judged, passing iff outputs match |
| Judge.CaseFailsIff | backend/controllers/codingController.js:287-298 | a case clears allPassed exactly when its status is not Accepted |
| Judge.AllPassedIff | backend/controllers/codingController.js:268-302 | allPassed ends true iff every verdict is Accepted |
| Judge.Grade | backend/controllers/codingController.js:272-308 | one result per case in order; status Accepted iff all are, else Wrong Answer; score is points or 0; time is the sum |
| Judge.GradeSubmission | backend/controllers/codingController.js:304-324 | the response carries the graded record's status and score, the number of cases, and one brief result per case in order |
| Judge.SubmitCode | backend/controllers/codingController.js:218-324 | gate refusals pass through; a missing question gives 404; no cases gives 400; otherwise every case is judged and the response carries the status, the score and one brief result per case |
| Judge.GatesPrecedeLookup | backend/controllers/codingController.js:140-161 | a refused request gets the same answer whatever the question store or Judge0 would say |
| Judge.ScoreAllOrNothing | backend/controllers/codingController.js:283-307 | the score is the question's points or 0; Accepted iff visible outputs match and hidden cases were Accepted by Judge0 |
| Judge.Redact | backend/controllers/codingController.js:121-124 | a hidden case's expected output becomes "Hidden"; everything else is kept |
| Judge.SanitizeQuestion | backend/controllers/codingController.js:118-125 | admins see the question unchanged; other users see hidden outputs as "Hidden" and visible ones unchanged |
| Judge.SanitizeHidesHiddenOutputs | backend/controllers/codingController.js:118-125 | for non-admins, questions that differ only in hidden outputs look the same |
| Judge.SanitizeIdempotent | backend/controllers/codingController.js:118-125 | redacting twice is the same as redacting once |
| Risk.RiskScore | backend/controllers/adminController.js:245-262 | the risk lies in 0..100; it is 0 without violations; it is ≥ 70 iff v ≥ 4 or (v = 3 and score ≥ 90) |
| Risk.RiskMonotone | backend/controllers/adminController.js:249-259 | for a fixed score, more violations never lower the risk |
| Risk.RiskMonotoneInScore | backend/controllers/adminController.js:249-259 | for fixed violations, a higher score never lowers the risk |
| Risk.HighRiskCountAppend | backend/controllers/adminController.js:265-280 | the high-risk count of two lists of attempts is the sum of their counts |
| Risk.HighRiskCountsAttempts | backend/controllers/adminController.js:265-280 | attempts are counted, not students: the same high-risk attempt twice counts 2 |
| Risk.HighRiskCountIsCardinality | backend/controllers/adminController.js:265-280 | the count is the number of positions whose attempt has risk ≥ 70 |
| Risk.Highest | backend/controllers/adminController.js:104 | the highest score bounds all scores and is one of them; 0 with no attempts |
| Risk.Lowest | backend/controllers/adminController.js:105 | the lowest score bounds all scores from below and is one of them; 0 with no attempts |
| Risk.SumBetween | backend/controllers/adminController.js:101 | a sum of scores each in [lo,hi] lies between n·lo and n·hi |
| Risk.Average | backend/controllers/adminController.js:101-103 | 0 with no answers; otherwise the mean rounded half-up (2·sum - n < 2(n·r) ≤ 2·sum + n), which lies between the lowest and highest score |
| Risk.AverageOfEqualScores | backend/controllers/adminController.js:174-178 | when all scores are equal, the average is that score |
| Risk.ExamScoreStats | backend/controllers/adminController.js:99-105 | the attempt count is right; everything is 0 with no attempts; the highest and lowest scores are attained and bound every score; the average is the mean score rounded half-up |
| Dashboard.RiskColor | frontend/src/pages/AdminDashboard.jsx:94-98 | red iff risk ≥ 70, yellow iff 40 ≤ risk < 70, green iff risk < 40 |
| Dashboard.RiskLabel | frontend/src/pages/AdminDashboard.jsx:100-104 | "High Risk" iff ≥ 70, "Medium Risk" iff 40..69, "Low Risk" iff < 40 |
| Dashboard.ColorAgreesWithLabel | frontend/src/pages/AdminDashboard.jsx:94-104 | red goes with High Risk, yellow with Medium Risk, green with Low Risk |
| Dashboard.HighRiskLabelMatchesCount | frontend/src/pages/AdminDashboard.jsx:100-104 | the dashboard's High Risk label matches the server's high-risk rule for the same attempt |
| Dashboard.LabelOfRiskScore | frontend/src/pages/AdminDashboard.jsx:100-104 | the label in terms of violations and score: High iff v ≥ 4 or (v = 3 and score ≥ 90); Medium iff (v = 2 and score ≥ 90) or (v = 3 and score < 90); Low otherwise |
| Dashboard.ScoreBadge | frontend/src/pages/AdminDashboard.jsx:377-381 | green iff score ≥ 70, yellow iff 50..69, red iff below 50 |
| Dashboard.ScoreBadgeMonotone | frontend/src/pages/AdminDashboard.jsx:377-381 | a higher score never gets a worse badge |
| Dashboard.SimilarityBadge | frontend/src/pages/AdminDashboard.jsx:622-626 | red iff similarity ≥ 90 %, yellow iff 80..90 %, green below 80 % |
| Dashboard.SimilarityBadgeMonotone | frontend/src/pages/AdminDashboard.jsx:622-626 | a higher similarity never gets a milder badge |
| Dashboard.ReportedPairsNeverGreen | frontend/src/pages/AdminDashboard.jsx:31 | with the default 80 % threshold or above, no reported pair has a green badge |
| Dashboard.OnDetectClick | frontend/src/pages/AdminDashboard.jsx:556-560 | detection is requested iff an exam is selected; otherwise the alert asks to select one |
| Dashboard.Cell | frontend/src/pages/AdminDashboard.jsx:146-147 | a PDF cell is at most 15 characters; "N/A" exactly for a missing, empty or "N/A" text; otherwise a non-empty prefix of the text: the whole text when it is short, exactly 15 characters when it is long |
| Dashboard.Place | frontend/src/pages/AdminDashboard.jsx:142-145 | a row below y = 270 moves to y = 20 of the next page; any other row stays put; so no row is drawn below 270 |
| Dashboard.Layout | frontend/src/pages/AdminDashboard.jsx:141-154 | one row per attempt, in order, with its score, violations and risk label |
| Dashboard.Slot | frontend/src/pages/AdminDashboard.jsx:140-154 | every computed row position is on page 1 or later, between y = 20 and y = 270 |
| Dashboard.ReportLayout | frontend/src/pages/AdminDashboard.jsx:132-154 | row i is at y = 122 + 7i on page 1 for i < 22, then 36 rows per page from y = 20; every row lies within [20, 270] |
| Chatbot.FirstKeyword | frontend/src/components/Chatbot.jsx:275-279 | the first keyword of a rule that is a substring of the message, or none |
| Chatbot.FirstRule | frontend/src/components/Chatbot.jsx:274-280 | the first rule in table order with a matching keyword, and its first matching keyword |
| Chatbot.Respond | frontend/src/components/Chatbot.jsx:269-284 | the fallback text iff no keyword occurs in the lower-cased message; otherwise the reply of the first category that mentions it |
| Chatbot.RespondIgnoresCase | frontend/src/components/Chatbot.jsx:271 | lower-casing the message first does not change the reply |
| Chatbot.MentionedRuleAnswers | frontend/src/components/Chatbot.jsx:274-280 | a mentioned category is never passed over: the reply comes from it or an earlier one |
| Chatbot.HiIsGreeted | frontend/src/components/Chatbot.jsx:210-212 | any message containing "hi" in any case gets the greeting |
| Chatbot.ThisViolationIsGreeted | frontend/src/components/Chatbot.jsx:210-280 | "this violation" gets the greeting, not the violation reply |
| Chatbot.SendMessage | frontend/src/components/Chatbot.jsx:132-206 | blank input leaves the state unchanged; otherwise the input clears, the earlier messages lose their typing indicators and keep their order, and the user's message then the bot's reply are appended; the reply is the assistant's answer when it is non-empty, else the keyword reply to the input |
| Chatbot.Exchange | frontend/src/components/Chatbot.jsx:141-170 | the user message and the answer become the last two messages, after the earlier ones without typing indicators |
| Chatbot.RemoveTyping | frontend/src/components/Chatbot.jsx:162 | the typing indicators go and every other message stays |
| Chatbot.RemoveTypingConcat | frontend/src/components/Chatbot.jsx:162 | the filter works message by message: filtering a concatenation concatenates the filtered parts, so order is kept |
| Chatbot.SendKeepsNoTyping | frontend/src/components/Chatbot.jsx:151-162 | after sending, no typing indicator is left |
| Register.IsValidEmail | frontend/src/pages/Register.jsx:22-23 | the email scan accepts exactly what the pattern `^[^\s@]+@[^\s@]+\.[^\s@]+$` accepts |
| Register.Validate | frontend/src/pages/Register.jsx:20-26 | '' iff all fields are filled, the email matches and the password has at least 6 characters; a missing field gives the emptiness error, then a bad email the email error; the password error comes exactly when the fields are filled, the email matches and the password is short |
| Register.EmailCheckedBeforePassword | frontend/src/pages/Register.jsx:23-24 | a bad email is reported even if the password is also too short |
| Register.HomeFor | frontend/src/pages/Register.jsx:43 | admins go to /dashboard, everyone else to /student-dashboard |
| Register.HandleSubmit | frontend/src/pages/Register.jsx:28-47 | an invalid form shows its error; registration succeeds iff the form is valid and a token comes back, then redirects by role; else the server message or "Registration failed" |
| Register.InvalidFormNotSent | frontend/src/pages/Register.jsx:32-36 | an invalid form's outcome does not depend on the server |
| Register.InitialFormRefused | frontend/src/pages/Register.jsx:7 | the fresh form has the student role and is refused as incomplete |
| ExamPage.Pad2 | frontend/src/pages/ExamPage.jsx:398 | seconds under 60 become exactly two digits with that value |
| ExamPage.FormatTime | frontend/src/pages/ExamPage.jsx:395-399 | the text is minutes without leading zeros, ':', two digits of seconds below 60, and minutes·60 + seconds gives back the input |
| ExamPage.FormatTimeRoundTrip | frontend/src/pages/ExamPage.jsx:395-399 | reading the clock text back gives the number of seconds |
| ExamPage.Next | frontend/src/pages/ExamPage.jsx:408-412 | the index moves up by one iff it is before the last question |
| ExamPage.Previous | frontend/src/pages/ExamPage.jsx:414-418 | the index moves down by one iff it is after the first question |
| ExamPage.NavigationStaysInRange | frontend/src/pages/ExamPage.jsx:408-418 | navigation keeps the index within the questions |
| ExamPage.NavigationInverse | frontend/src/pages/ExamPage.jsx:408-418 | a step forward that moved is undone by a step back, and vice versa |
| ExamPage.Tick | frontend/src/pages/ExamPage.jsx:314-321 | while not submitted the timer drops by one; at 0 with a loaded exam it submits; otherwise nothing changes |
| ExamPage.CountdownSubmits | frontend/src/pages/ExamPage.jsx:314-321 | from t seconds, t ticks reach 0 and the next tick submits |
| ExamPage.SubmittedClockStands | frontend/src/pages/ExamPage.jsx:315-318 | a submitted exam's clock never changes |
| ExamPage.Classify | frontend/src/pages/ExamPage.jsx:190-198 | 0 faces is a no-face violation, more than 1 a multiple-faces violation, exactly 1 is fine |
| ExamPage.HandleViolation | frontend/src/pages/ExamPage.jsx:202-206 | each violation adds exactly one to the count, stamps the time, shows the message and is logged |
| ExamPage.OnFaces | frontend/src/pages/ExamPage.jsx:183-199 | the state changes iff not submitted, proctoring is on, at least 3000 ms have passed and the face count is not 1; then one violation of the right kind is added and its warning text shown; the submitted and proctoring flags never change |
| ExamPage.OnFacesKeepsSpaced | frontend/src/pages/ExamPage.jsx:184-188 | one detection keeps logged violations 3000 ms apart and the count equal to the log length |
| ExamPage.RunKeepsSpaced | frontend/src/pages/ExamPage.jsx:184-188 | over any run of detections, logged violations stay 3000 ms apart and the count equals the log length |
| ExamPage.OneFaceIsFine | frontend/src/pages/ExamPage.jsx:190-198 | one face never changes the state |
| ExamPage.CountCorrectCountsPositions | frontend/src/pages/ExamPage.jsx:367-372 | the count is the number of questions whose stored answer equals the correct one |
| ExamPage.LocalScore | frontend/src/pages/ExamPage.jsx:366-375 | none without questions; otherwise the share of correct answers rounded half-up to a whole percent, in 0..100 |
| ExamPage.AllAnsweredScoresFull | frontend/src/pages/ExamPage.jsx:367-373 | answering every question correctly scores 100 |
| QuestionForm.AddTestCase | frontend/src/components/CodingQuestionForm.jsx:25-30 | one empty visible case is appended and the others are kept |
| QuestionForm.RemoveTestCase | frontend/src/components/CodingQuestionForm.jsx:32-37 | with more than one case, exactly the case at the index goes and the order is kept; a single case is never removed |
| QuestionForm.ApplyEdit | frontend/src/components/CodingQuestionForm.jsx:21 | an edit changes only its own field of the case |
| QuestionForm.ChangeTestCase | frontend/src/components/CodingQuestionForm.jsx:19-23 | only the indexed case changes, and only the edited field; the other cases are untouched |
| QuestionForm.NeverEmpty | frontend/src/components/CodingQuestionForm.jsx:32-37 | no sequence of adds, removes and edits empties the list |
| QuestionForm.RemoveKeepsPrefix | frontend/src/components/CodingQuestionForm.jsx:32-37 | removing shortens the list by one and keeps the cases before the index |
| QuestionForm.ParseInt | frontend/src/components/CodingQuestionForm.jsx:44-45 | a number is read iff a digit comes right after the leading white space and at most one sign; otherwise NaN, in particular for text without any digit |
| QuestionForm.ParseIntRoundTrip | frontend/src/components/CodingQuestionForm.jsx:44-45 | parseInt reads back any integer written in decimal |
| QuestionForm.ParseIntReadsLeadingNumber | frontend/src/components/CodingQuestionForm.jsx:44-45 | leading white space, an optional sign, then digits up to the first non-digit are read as that signed number |
| QuestionForm.ParseIntSpacedExample | frontend/src/components/CodingQuestionForm.jsx:44-45 | "  12abc" reads as 12 |
| QuestionForm.ParseIntSignedExample | frontend/src/components/CodingQuestionForm.jsx:44-45 | "-7x" reads as -7 |
| QuestionForm.ParseIntNaNExamples | frontend/src/components/CodingQuestionForm.jsx:44-45 | "x5", "--5", "- 5" and "+-1" read as NaN |
| QuestionForm.HandleSubmit | frontend/src/components/CodingQuestionForm.jsx:39-47 | the payload carries the form's fields, the exam id, and the two numbers parsed as integers |
| QuestionForm.SubmitSendsTypedNumbers | frontend/src/components/CodingQuestionForm.jsx:39-47 | typed integers reach the server unchanged |
| QuestionForm.InitialSubmit | frontend/src/components/CodingQuestionForm.jsx:4-12 | an untouched form sends 10 points, 2000 ms and one empty visible case |
| Editor.MonacoLanguage | frontend/src/components/CodingEditor.jsx:222-230 | the four languages map to themselves and anything else to javascript |
| Editor.MonacoLanguageIdempotent | frontend/src/components/CodingEditor.jsx:222-230 | mapping twice is mapping once |
| Editor.SelectorOffersKnown | frontend/src/components/CodingEditor.jsx:5-10 | the selector offers exactly the languages the editor knows |
| Editor.DefaultCode | frontend/src/components/CodingEditor.jsx:13-79 | a template exists exactly for the four languages; javascript's is the JavaScript starter |
| Editor.ChangeLanguage | frontend/src/components/CodingEditor.jsx:206-214 | the language switches; code becomes the question's non-empty default for it, else the built-in template, else ''; violations, reports, the warning and the tab-switch stamp are kept |
| Editor.ChangeLanguageDiscardsCode | frontend/src/components/CodingEditor.jsx:206-214 | the code after a switch does not depend on what was typed before |
| Editor.BackToJavaScript | frontend/src/components/CodingEditor.jsx:206-214 | switching back to javascript without question defaults restores the initial code |
| Editor.DisplayWarning | frontend/src/components/CodingEditor.jsx:104-113 | each warning adds exactly one violation and shows the message; language, code, reports and the tab-switch stamp are kept |
| Editor.OnPaste | frontend/src/components/CodingEditor.jsx:116-130 | every paste is counted and warned about with its length; it is reported iff a handler is attached; language, code and the tab-switch stamp are kept |
| Editor.OnCopy | frontend/src/components/CodingEditor.jsx:133-146 | a copy is counted and warned about iff more than 10 characters were selected, and then reported iff a handler is attached; language, code and the tab-switch stamp are kept |
| Editor.OnVisibility | frontend/src/components/CodingEditor.jsx:149-168 | leaving records the time; returning counts the absence once, warns with the time away and reports it iff a handler is attached; otherwise nothing changes; language and code are always kept |
| Editor.OnFullscreenChange | frontend/src/components/CodingEditor.jsx:171-181 | leaving fullscreen is counted and warned about, and reported iff a handler is attached; entering it changes nothing; language, code and the tab-switch stamp are kept |
| Editor.CountMatchesReports | frontend/src/components/CodingEditor.jsx:116-181 | with a handler attached, every handler keeps the violation count equal to the number of reports |
| Editor.StatusColorOf | frontend/src/components/CodingEditor.jsx:233-238 | green iff Accepted, red iff Wrong Answer, yellow iff Running, otherwise gray |
| Editor.AcceptedOnlyCounts | frontend/src/components/CodingEditor.jsx:323 | the badge's accepted count equals the judge's accepted count |
| Editor.PassBadge | frontend/src/components/CodingEditor.jsx:321-325 | no badge without results; otherwise accepted ≤ total = number of results |
| Editor.PassBadgeMatchesSummary | frontend/src/components/CodingEditor.jsx:321-325 | the badge shows the run summary's passed / total |
| WarningPopup.Counter | frontend/src/components/WarningPopup.jsx:102-106 | "Auto-submit enabled!" iff the violations reach the allowance; otherwise a positive count of what remains |
| WarningPopup.DefaultThresholds | frontend/src/components/WarningPopup.jsx:8-16 | with the default allowance of 5, critical iff at least 4 violations, auto-submit shown iff at least 5 |
| WarningPopup.AutoSubmitIsCritical | frontend/src/components/WarningPopup.jsx:102-106 | the auto-submit line only appears on a critical popup |
| WarningPopup.Step | frontend/src/components/WarningPopup.jsx:27 | each tick removes a positive step, and the steps over the dismiss time add up to the full bar |
| WarningPopup.Tick | frontend/src/components/WarningPopup.jsx:26-29 | a tick lowers the bar by exactly one step when more than one step is left, and empties it iff at most one step was left |
| WarningPopup.Progress | frontend/src/components/WarningPopup.jsx:18-33 | the bar stays within 0..100 and is full while hidden |
| WarningPopup.ProgressClosedForm | frontend/src/components/WarningPopup.jsx:18-33 | for any dismiss time, n ticks after showing the bar reads 100 − n·step, or 0 once that is not positive |
| WarningPopup.DefaultProgress | frontend/src/components/WarningPopup.jsx:10-33 | at the default 5000 ms the step is 2, the bar reads 100 - 2n after n ticks and is empty from 50 ticks on |

## Left out

- The Judge0 HTTP client (backend/controllers/codingController.js:332-366) is
  network I/O. It is the parameter `Judge.Judge0`, which may answer with its
  own error result. Judge0's float time text is taken as whole milliseconds.
- Persistence is left out: Mongoose queries, the schema files, routes and the
  server bootstrap. A question lookup is an `Option` argument, and the
  schemas give only the shapes of the datatypes.
- The high-risk filter inside `getExamStats`
  (backend/controllers/adminController.js:115-118) passes an un-awaited
  Promise to `calculateRiskScore`, so its result is ill-defined. It is not
  modelled. The high-risk count modelled is the one of
  `getHighRiskStudentsCount`.
- The coding routes import an `executeCode` handler that the controller does
  not export (backend/routes/coding.js:9,18). That route is not modelled.
- The admin dashboard imports `detectPlagiarism` and `getPlagiarismStats`
  from frontend/src/utils/api.js, which does not export them. In an ES module
  an import of a name its module does not export fails when the modules are
  linked, so the page as shipped does not load. The model describes the page
  as written, on the assumption that the imports resolve. The request itself
  is not modelled; only the guard in front of it is.
- Floating point is left out. Similarity, percentages and averages are exact
  integers in hundredths or units with round-half-up. The source rounds a
  double, which can land on the other side of a half; the next four lines
  name the members where the model can differ from it by one unit.
- Similarity.CalculateSimilarity: rounds the exact ratio. For a longer
  length of 2080 and a distance of 1781 the exact value is 14.375 %, which
  the model rounds to 1438, whereas the doubles in the source give 14.37.
- Plagiarism.FlaggedPercentage: rounds the exact ratio. With 23 flagged pairs
  out of 160 comparisons the model gives 1438 (14.38 %), whereas the source
  computes 14.37.
- Plagiarism.Average: rounds the exact mean of the exact similarities, while
  the source sums doubles that are already rounded, so a mean close to a
  half may round the other way.
- ExamPage.LocalScore: rounds the exact ratio. With 23 correct answers out of
  40 the model gives 58, whereas `(23 / 40) * 100` is 57.49999999999999 as a
  double and the source shows 57. Risk.Average divides integers only once,
  so it agrees with the source.
- Similarity.PreprocessCode: `toLowerCase` folds ASCII letters only, and
  lengths count code points rather than UTF-16 units.
- Similarity.CalculateSimilarity: lengths count code points, whereas
  `str.length` counts UTF-16 units. A character outside the Basic
  Multilingual Plane is one unit in the model and two in the source. So
  "print('😀')" against "print('😁')" is 90.91 % in the source (11 units,
  distance 1) but 90.00 % in the model (10 characters, distance 1).
- Levenshtein.LevenshteinDistance: compares code points, whereas `str[i]`
  in the source compares UTF-16 units. Two different characters outside the
  Basic Multilingual Plane are one edit in the model, and one or two in the
  source, depending on how many of their surrogate halves differ.
- Security.ValidateCode: the 27 forbidden regular expressions are written in
  a small matcher, which covers literals, `\s*`, `['"]`, `.*` and `\b`. It is
  not a general regex engine.
- The JavaScript infinite-loop heuristic
  (backend/controllers/codingController.js:57-65) only writes a console
  warning. It therefore has no effect in the model.
- Plagiarism.SortDesc: pairs of equal similarity may come out in a different
  order than the engine's sort. Only the order by similarity and the contents
  are stated.
- Chatbot.Respond: the long reply texts are abstracted to their category,
  and `ReplyText` shows the category name in their place. The fallback text
  is kept verbatim.
- Chatbot.GetBotResponse has no contract of its own. It is `Respond` over
  the fixed table, and the lemmas about it (`HiIsGreeted`,
  `ThisViolationIsGreeted`) state its behaviour.
- Chatbot.SendMessage: models the component as written, with the remote
  `askChatbot` answer as a parameter (`None` when it fails or gives no
  answer). Logging the question to the server is left out.
  frontend/src/components/Chatbot.jsx:2 imports `askChatbot` and
  `logChatbotQuestion`, but frontend/src/utils/api.js exports neither. The
  import therefore does not link: the component does not load, and no reply
  is shown at all. The model assumes the imports resolve.
- QuestionForm.ParseInt models base-10 `parseInt` only. A "0x" prefix is
  read as 0, not as hexadecimal.
- The form fields hold strings, whereas the initial points and time limit
  are numbers. `parseInt` gives the same value for both.
- Editor.MonacoLanguage: lookups into the object literals of
  `getMonacoLanguage` and `DEFAULT_CODE` are modelled on the four own keys
  only. Inherited keys such as "toString" cannot come from the fixed
  language selector.
- Editor.StatusColorOf: the "Running" state is only a colour. No run is in
  flight in the model.
- React scheduling, effects, timers and stale closures are left out. Each
  handler is a pure state step over explicit parameters, such as the current
  time and the face count.
- MediaPipe face detection, the webcam, snapshots, clipboard and fullscreen
  DOM events, speech recognition and the jsPDF drawing calls are left out.
  Only their inputs and decisions are modelled.
- Dashboard.Cell: `substring(0, 15) || 'N/A'` is modelled on an optional
  text. The value "N/A" itself is shown as "N/A", like any other short text.
- Dashboard.Cell: the 15-character cut counts code points, whereas
  `substring` counts UTF-16 units. Text outside the Basic Multilingual
  Plane is cut differently.
- Register.Validate: the 6-character password minimum counts code points,
  whereas `length` counts UTF-16 units. A password of 3 emoji is 6 units
  long and passes in the source, but is too short in the model.
- Judge.Gates: models the corrected language gate (see Findings), so
  "toString", "constructor" or "valueOf" get 400 Unsupported language. The
  source lets them through to the security check and Judge0. The behaviour
  as written is `Judge.LanguageGateAsWritten`, and
  `Judge.InheritedKeyPassesGate` exhibits it.
- Judge.RunCode: goes through `Judge.Gates`, so it refuses "toString",
  "constructor" and "valueOf" with 400. The source
  (backend/controllers/codingController.js:146-149) lets them through.
- Judge.SubmitCode: goes through `Judge.Gates`, so it refuses "toString",
  "constructor" and "valueOf" with 400. The source
  (backend/controllers/codingController.js:229-232) lets them through.
- ExamPage.OnFaces models the face check as written at
  frontend/src/pages/ExamPage.jsx:183-199. In the page, `onResults` is
  registered once, by a callback with no dependencies (lines 167-180). The
  closure it keeps therefore sees the first render's `submitted` and
  `proctoringEnabled`. If proctoring is off in that render, the check never
  fires. React closure capture is not modelled.
- Editor.OnPaste, Editor.OnCopy, Editor.OnVisibility and
  Editor.OnFullscreenChange: `hasHandler` stands for whether the
  `onViolation` prop is present. The report itself is a call into the page,
  which is not modelled.
- The Login, dashboard, layout, analytics and CRUD controllers hold no
  decision logic beyond what is modelled here.

## Findings

| source | as written | input that shows it | evidently intended | confidence | as-written member | corrected member |
|---|---|---|---|---|---|---|
| backend/controllers/codingController.js:146-149 | `LANGUAGE_IDS[language]` on a plain object literal, so inherited names resolve to functions and pass `!languageId` | language "toString" (or "constructor", "valueOf") passes the unsupported-language gate, and the request reaches the security check and Judge0 with no valid language id | only javascript, python, java and cpp pass the gate | not executed | Judge.InheritedKeyPassesGate | Judge.LanguageGateIff |
