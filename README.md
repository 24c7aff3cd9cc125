# Streamlit exercises and the ERP trend dashboard, modelled in Dafny

This project models the logic behind five small Python programs. Each one is
a Dafny module in its own file.

- `trend_scores.dfy` (module `TrendScores`) covers how the ERP trend
  dashboard pulls four credibility scores out of the fact-checking agent's
  free-text answer. Each label is searched case-insensitively with
  `<Label>[:\s|]*(\d+)%?`. The leftmost match wins. A default is kept when
  there is no match, or when the captured run is longer than the 4300
  digits `int` accepts. A loop over the four patterns is proved equal to
  scoring each key on its own.
- `trend_dashboard.dfy` (module `TrendDashboard`) covers the dashboard's
  display rules and its per-message loop:
  - The three colour bands of a score.
  - The Done / Active / Pending status of each agent.
  - The 3000-character truncation of each result.
  - The per-message loop of a run, which keeps the results list, the latest
    output per agent, the completed agents and the progress fraction. Each
    is proved equal to a function of the message stream.
- `quiz.dfy` (module `Quiz`) covers the quiz page. Its session is a class
  with the question index, the answers and the submitted flag. Previous,
  Next, Answer, Submit and Play Again are methods on it. Scoring is a loop
  proved against a counting function, and a three-tier verdict sits on top.
- `splitwise.dfy` (module `Splitwise`) covers the expense splitter:
  - Input validation.
  - Each participant's balance against an equal share.
  - One message per participant with a phone, stating what they owe, get
    back, or that they are settled.
  - A WhatsApp link whose spaces are encoded as `%20`.
- `voter_form.dfy` (module `VoterForm`) covers the voter-eligibility form.
  Its session is a class with the popup flag, message and colour. A blank
  name is refused. Otherwise a popup with an eligibility message appears on
  one run and is then cleared. The page container's `blurred` class is
  chosen before the submission is handled, so it never comes with the popup
  (see Findings).
- `weather.dfy` (module `Weather`) covers the six-line text report that the
  wttr.in script builds from the service's JSON. It includes the script's
  fallbacks for missing keys and the IndexError raised for empty lists. A
  reader recovers every value from the printed report, provided no value
  contains a line break and the Celsius temperature contains no degree
  sign.

`wrappers.dfy` holds `Option` and `Result`. `chars.dfy` holds the ASCII
whitespace class that Python's `str.strip` and the regex `\s` use.

## Model

| member | source | states |
|---|---|---|
| TrendScores.SkipSeparators | ERP_Trend_Analyzer/app.py:605-608 | the separator class of the pattern consumes the maximal run of colons, vertical bars and whitespace after the label |
| TrendScores.DigitRunEnd | ERP_Trend_Analyzer/app.py:605-608 | `(\d+)` captures the maximal run of digits that follows |
| TrendScores.DigitsValue | ERP_Trend_Analyzer/app.py:615 | `int` of a digit run: a run of zeros reads as 0; DigitsValueBound, DigitsRoundTrip and LeadingZeroDropped state the rest of what it means |
| TrendScores.DigitsValueBound | ERP_Trend_Analyzer/app.py:615 | a run of n digits reads as a value below 10^n |
| TrendScores.DigitsRoundTrip | ERP_Trend_Analyzer/app.py:615 | conversely, every value below 10^n is read from a run of n digits (its numeral with leading zeros): `int` does not clamp |
| TrendScores.LeadingZeroDropped | ERP_Trend_Analyzer/app.py:615 | leading zeros do not change the value `int` reads |
| TrendScores.MatchAt | ERP_Trend_Analyzer/app.py:605-608 | a match at a position needs the label there, ignoring case, and captures a non-empty run of digits; CapturedAt states which run, at any position |
| TrendScores.FirstMatch | ERP_Trend_Analyzer/app.py:612 | the position found is a match, and no position between the start and it matches; when none is found, no position matches |
| TrendScores.SearchIsLeftmost | ERP_Trend_Analyzer/app.py:612-613 | `re.search` succeeds iff some position matches, and then it yields the leftmost match's value |
| TrendScores.Search | ERP_Trend_Analyzer/app.py:612-615 | what the search captures is a non-empty run of digits |
| TrendScores.NoMatchWhenTooShort | ERP_Trend_Analyzer/app.py:612 | a text shorter than the label has no match |
| TrendScores.SkipNonMatches | ERP_Trend_Analyzer/app.py:612 | the search from a position equals the search from after a run of non-matching positions |
| TrendScores.ScoreFor | ERP_Trend_Analyzer/app.py:611-617 | a key's score is the value of the digits captured by the leftmost match of its label; it is the default when there is no match or when the captured run is longer than 4300 digits, where `int` raises ValueError and the handler passes |
| TrendScores.Scores | ERP_Trend_Analyzer/app.py:597-619 | the reference score table: every key is present, each scored on its own by ScoreFor; ExtractScoresIsScores proves the loop equal to it |
| TrendScores.ExtractScores | ERP_Trend_Analyzer/app.py:595-619 | the loop over the four patterns, with its try/except, returns exactly the four keys, each mapped to its own score as above |
| TrendScores.ExtractScoresIsScores | ERP_Trend_Analyzer/app.py:597-619 | the loop's table equals the table of independently scored keys |
| TrendScores.EmptyResponseDefaults | ERP_Trend_Analyzer/app.py:597-602 | an empty response keeps every default (85, 80, 88, 90) |
| TrendScores.DashboardScores | ERP_Trend_Analyzer/app.py:835-836 | the table is the score table of the FactChecker output when there is one; with the `''` fallback every key keeps its default; the table always has the four keys |
| TrendScores.LabelledRunFound | ERP_Trend_Analyzer/app.py:612-613 | after `Label: ` a run of digits not followed by a digit is found at the start and captured whole |
| TrendScores.SkipRun | ERP_Trend_Analyzer/app.py:605 | a run of separators followed by a non-separator, or by the end of the text, is exactly what the separator class consumes |
| TrendScores.SeparatedRunCaptured | ERP_Trend_Analyzer/app.py:605-608 | after the label, any run of separators followed by digits gives a match that captures the whole digit run, whatever non-digit follows |
| TrendScores.NoDigitNoMatch | ERP_Trend_Analyzer/app.py:605-608 | when the separators after the label end at the end of the text or at a character that is not a digit, there is no match at that position |
| TrendScores.CapturedAt | ERP_Trend_Analyzer/app.py:605-608 | wherever the label occurs, in any case, with separators after it and then a maximal digit run, the match there captures exactly that run |
| TrendScores.LeftmostCaptureScored | ERP_Trend_Analyzer/app.py:611-617 | when the label first matches at some position, anywhere in the text, the key is scored as the value of the digit run captured there, for runs of at most 4300 digits |
| TrendScores.DigitRunOf | ERP_Trend_Analyzer/app.py:605 | the digit run starting after a prefix ends where the digits end |
| TrendScores.AnyValueScored | ERP_Trend_Analyzer/app.py:611-615 | any value written with 1 to 4300 digits after `Label: ` is the key's score as it is |
| TrendScores.OverlongRunKeepsDefault | ERP_Trend_Analyzer/app.py:613-617 | a leftmost run of more than 4300 digits keeps the default, even when the label occurs again later with an acceptable number |
| TrendScores.MidTextUpperCase | ERP_Trend_Analyzer/app.py:605-615 | an upper-case label at the start of the second line of the response is found and its `92` scored as 92 |
| TrendScores.MidTextNoEarlierMatch | ERP_Trend_Analyzer/app.py:605 | no position of the first line `Summary` matches the label |
| TrendScores.MidTextLabel | ERP_Trend_Analyzer/app.py:605 | the upper-case label matches the label ignoring case, at the start of the second line |
| TrendScores.MidTextCapture | ERP_Trend_Analyzer/app.py:605-608 | after the mid-text label, `: ` is skipped and `92` is captured |
| TrendScores.TableRowYieldsValue | ERP_Trend_Analyzer/app.py:605 | a markdown table row holding the label, a bar and `92%` yields 92 |
| TrendScores.TableRowMatch | ERP_Trend_Analyzer/app.py:612-613 | the search over the table row `| Factual Accuracy | 92% |` captures `92` |
| TrendScores.TableRowCapture | ERP_Trend_Analyzer/app.py:605 | at the label's position in the table row, ` | ` is skipped and `92` captured |
| TrendScores.UnclampedAnyCase | ERP_Trend_Analyzer/app.py:608-615 | `TIMELINESS: 150` yields 150: case is ignored and the value is not clamped |
| TrendScores.TrailingWordSkipped | ERP_Trend_Analyzer/app.py:605 | `Factual Accuracy Score: 90` keeps the default 85, because a word between label and number breaks the match |
| TrendScores.TrailingWordNoCapture | ERP_Trend_Analyzer/app.py:605 | after `Factual Accuracy` come a space and a letter, so no digits are captured there |
| TrendScores.NoLabelInside | ERP_Trend_Analyzer/app.py:612 | the label does not start again inside the first eleven characters of that text |
| TrendDashboard.BandOf | ERP_Trend_Analyzer/app.py:470 | green iff the score is at least 80, amber iff it is in [60, 80), red iff it is below 60 |
| TrendDashboard.BarColours | ERP_Trend_Analyzer/app.py:510-516 | one bar colour per value, in order, each the colour of the value's band |
| TrendDashboard.StatusOf | ERP_Trend_Analyzer/app.py:404-410 | Done iff completed; Active iff not completed and current; Pending otherwise |
| TrendDashboard.SidebarBadges | ERP_Trend_Analyzer/app.py:663-671 | one badge per agent, the badge of its status: `Done` exactly for the completed agents, and at most one `Active` |
| TrendDashboard.WorkflowColours | ERP_Trend_Analyzer/app.py:404-410 | one chart colour per agent, the colour of its status: green exactly for the completed agents, and at most one blue |
| TrendDashboard.DisplayContent | ERP_Trend_Analyzer/app.py:881 | content up to 3000 characters is shown whole; longer content shows its first 3000 characters plus `...`; the result is longer than 3000 iff the content is |
| TrendDashboard.AgentIndex | ERP_Trend_Analyzer/app.py:782 | `agent_names.index(source)` is below 4 and names the source |
| TrendDashboard.Accepted | ERP_Trend_Analyzer/app.py:778-781 | a message is used iff it has a source and a content, the content is non-empty and the source is one of the four agents (the non-empty source test adds nothing) |
| TrendDashboard.Results | ERP_Trend_Analyzer/app.py:787-791 | never more results than messages; every result names one of the four agents and has non-empty content |
| TrendDashboard.LatestOutput | ERP_Trend_Analyzer/app.py:786 | an agent has a latest output iff a message of it was accepted; it is then one of the four agents and the output is non-empty |
| TrendDashboard.FirstSeen | ERP_Trend_Analyzer/app.py:782-784 | the completed list holds only indices of the four agents |
| TrendDashboard.Progress | ERP_Trend_Analyzer/app.py:793-794 | there is one progress value per result |
| TrendDashboard.HeardStep | ERP_Trend_Analyzer/app.py:778-781 | an agent is heard from in a longer stream iff it was before, or the new item is its accepted message |
| TrendDashboard.FirstSeenSpec | ERP_Trend_Analyzer/app.py:781-784 | the completed list has no duplicates and holds an agent's index iff a message from that agent was accepted |
| TrendDashboard.DistinctBelowBound | ERP_Trend_Analyzer/app.py:783-784 | a duplicate-free list of indices below n has at most n elements |
| TrendDashboard.FirstSeenBound | ERP_Trend_Analyzer/app.py:783-784 | the completed list is duplicate-free and never holds more than the four agents |
| TrendDashboard.CompletedGrowth | ERP_Trend_Analyzer/app.py:783-784 | one more message never shrinks the completed list, and an accepted one leaves it non-empty |
| TrendDashboard.PrefixStep | ERP_Trend_Analyzer/app.py:781-793 | one more message appends one result, records its agent on first sight and appends one progress value exactly when it is accepted |
| TrendDashboard.LatestStep | ERP_Trend_Analyzer/app.py:786 | an accepted message becomes its agent's latest output, and every other agent's latest output is unchanged |
| TrendDashboard.OutputsStep | ERP_Trend_Analyzer/app.py:786 | `agent_outputs[source] = content` keeps the map equal to each agent's latest output |
| TrendDashboard.ProgressStep | ERP_Trend_Analyzer/app.py:793-794 | appending a value in (0, 1] that is at least the last value keeps the progress values in range and non-decreasing |
| TrendDashboard.Fraction | ERP_Trend_Analyzer/app.py:793 | the fraction times four is the number of completed agents, so it is positive once one agent is completed and at most 1 while at most four are |
| TrendDashboard.FractionMonotone | ERP_Trend_Analyzer/app.py:793 | more completed agents never give a smaller fraction |
| TrendDashboard.ProgressSpec | ERP_Trend_Analyzer/app.py:793-794 | every progress value lies in (0, 1], none is below the one before, and the last is completed/4 |
| TrendDashboard.StepwiseIsMonotone | ERP_Trend_Analyzer/app.py:793-794 | values that never drop from one to the next never drop at all |
| TrendDashboard.ProgressNeverDecreases | ERP_Trend_Analyzer/app.py:793-794 | the progress bar never moves back during a run |
| TrendDashboard.RunWithProgress | ERP_Trend_Analyzer/app.py:776-800 | the loop returns the results, latest outputs and completed list of the stream; the completed list is duplicate-free with at most 4 entries; progress has one in-range, non-decreasing value per result |
| TrendDashboard.StatusAfterRun | ERP_Trend_Analyzer/app.py:807-809 | after a run, an agent's badge is Done iff a message from it was accepted and Pending otherwise |
| TrendDashboard.StatusAtStart | ERP_Trend_Analyzer/app.py:718-719 | when a run starts, the first agent is Active and the others are Pending |
| Quiz.Unanswered | week_1/streamlit/quiz_app.py:64 | one empty answer per question |
| Quiz.CountCorrect | week_1/streamlit/quiz_app.py:114-125 | the score is at most n; it is n iff every answer is correct and 0 iff none is |
| Quiz.UnansweredScoresZero | week_1/streamlit/quiz_app.py:118-125 | empty answers score 0 |
| Quiz.VerdictFor | week_1/streamlit/quiz_app.py:134-140 | Perfect iff score = n; Great iff score < n and score >= 0.7 n; Keep learning otherwise |
| Quiz.FiveQuestionTiers | week_1/streamlit/quiz_app.py:40-56 | with the five shipped questions, Great iff exactly 4 are right and Keep learning iff at most 3 are |
| Quiz.QuizSession.constructor | week_1/streamlit/quiz_app.py:61-66 | the first visit is on question 0 with no answers and not submitted |
| Quiz.QuizSession.Clamp | week_1/streamlit/quiz_app.py:69 | the index becomes `max(0, min(q, n-1))`, and answers and flag are unchanged |
| Quiz.QuizSession.Answer | week_1/streamlit/quiz_app.py:84-89 | the choice is written into the current question's slot only |
| Quiz.QuizSession.Previous | week_1/streamlit/quiz_app.py:95-97 | disabled iff on the first question; otherwise it moves back one |
| Quiz.QuizSession.Next | week_1/streamlit/quiz_app.py:100-102 | disabled iff on the last question; otherwise it moves forward one |
| Quiz.QuizSession.Submit | week_1/streamlit/quiz_app.py:105-108 | enabled iff every question has an answer, and it sets the submitted flag iff enabled |
| Quiz.QuizSession.Score | week_1/streamlit/quiz_app.py:114-125 | the counting loop returns the number of correct answers |
| Quiz.QuizSession.PlayAgain | week_1/streamlit/quiz_app.py:142-146 | the session is reset to question 0 with no answers, not submitted |
| Quiz.PerfectRound | week_1/streamlit/quiz_app.py:40-146 | answering every shipped question correctly scores 5 of 5 with the verdict Perfect, and Play Again clears the flag |
| Splitwise.CollectParticipants | python_challenge/day2/splitwise.py:117-124 | one participant per input row, in order; no rows for a count below one |
| Splitwise.RowOf | python_challenge/day2/splitwise.py:133-134 | a row keeps the name, payment and phone as entered, and its balance is `round(payment - share, 2)` |
| Splitwise.SettlementOf | python_challenge/day2/splitwise.py:145-150 | owe iff the balance is negative, get back iff positive, settled iff zero; the amount is the balance's absolute value |
| Splitwise.MessageText | python_challenge/day2/splitwise.py:145-150 | the text greets the participant by name, states the amount and the currency when something is owed or got back, and ends in the emoji of the settlement: money with wings for owing, a party popper for getting back, a check mark for settled |
| Splitwise.OweWording | python_challenge/day2/splitwise.py:145-146 | a negative balance's text contains "you owe " followed by the shown amount and the currency |
| Splitwise.GetBackWording | python_challenge/day2/splitwise.py:147-148 | a positive balance's text contains "you’ll get back " followed by the shown amount and the currency |
| Splitwise.SettledWording | python_challenge/day2/splitwise.py:149-150 | a zero balance's text contains "you’re all settled up" |
| Splitwise.EncodeSpaces | python_challenge/day2/splitwise.py:152 | the link text has no spaces, and each space becomes three characters |
| Splitwise.DecodeEncode | python_challenge/day2/splitwise.py:152 | for a message without `%`, decoding the link text gives the message back |
| Splitwise.EncodeWithoutSpaces | python_challenge/day2/splitwise.py:152 | a message without spaces goes into the link unchanged |
| Splitwise.EncodeAppend | python_challenge/day2/splitwise.py:152 | the encoding of a concatenation is the concatenation of the encodings |
| Splitwise.EncodeOne | python_challenge/day2/splitwise.py:152 | a space becomes `%20` and every other character, `%` included, stays as it is |
| Splitwise.WhatsAppLink | python_challenge/day2/splitwise.py:152 | the link is `https://wa.me/`, the phone and `?text=`, followed by the encoded message, which has no spaces and from which a message without `%` decodes back |
| Splitwise.MessageOf | python_challenge/day2/splitwise.py:145-152 | the message of one row is addressed to its name, names the amount and currency when the balance is not zero, and its link opens a chat with the row's phone carrying the encoded text |
| Splitwise.MessagesOf | python_challenge/day2/splitwise.py:143-144 | there are never more messages than rows |
| Splitwise.NoPhoneNoMessages | python_challenge/day2/splitwise.py:144 | rows without a phone get no message |
| Splitwise.MessagesCountPhones | python_challenge/day2/splitwise.py:143-153 | the k-th message belongs to the k-th row that has a phone, and there is one per such row |
| Splitwise.PhoneRows | python_challenge/day2/splitwise.py:143-144 | the rows with a phone: each row with a phone occurs in it as often as in the table, and no row without a phone occurs |
| Splitwise.PhoneRowsExactly | python_challenge/day2/splitwise.py:143-144 | a row is among the phone rows iff it is a row of the table with a phone |
| Splitwise.PhoneRowsAppend | python_challenge/day2/splitwise.py:143-144 | order is kept: the phone rows of two tables in a row are those of the first, then those of the second |
| Splitwise.Calculate | python_challenge/day2/splitwise.py:127-153 | invalid input iff total <= 0 or count <= 0; otherwise one row per participant with its rounded balance against total/count, then the messages for the rows with a phone; and when rounding changes no balance, the balances add up to the sum paid minus the total |
| Splitwise.ExactBalancesSum | python_challenge/day2/splitwise.py:131-135 | before rounding, the balances add up to the sum paid minus the total |
| Splitwise.SumBalancesShift | python_challenge/day2/splitwise.py:131-134 | the sum of contribution-minus-share over n people is the sum paid minus n shares |
| Splitwise.RoundedBalancesSum | python_challenge/day2/splitwise.py:130-134 | when rounding to cents changes no balance, the balances of the rows add up to the sum paid minus the total |
| Splitwise.RowBalancesExact | python_challenge/day2/splitwise.py:133-134 | when rounding changes no balance, the rows' balances sum to the exact balances |
| VoterForm.Decide | python_challenge/day_1/form.py:106-116 | no popup iff the name is blank; green iff age >= 18 and red iff age < 18; the message contains the name, and says "You are eligible to vote." at 18 or over and "You are not eligible to vote yet." under 18 |
| VoterForm.IsBlank | python_challenge/day_1/form.py:107 | a name is blank iff nothing is left once its leading whitespace is stripped |
| VoterForm.StripLeading | python_challenge/day_1/form.py:107 | the stripped name is a suffix of the name, everything dropped is whitespace, and it does not start with whitespace |
| VoterForm.EligibleMessage | python_challenge/day_1/form.py:111 | the eligible message names the person, opens with a party popper and contains "You are eligible to vote." |
| VoterForm.IneligibleMessage | python_challenge/day_1/form.py:114 | the ineligible message names the person, opens with a no-entry sign, so it differs from the eligible one, and contains "You are not eligible to vote yet." |
| VoterForm.FormSession.constructor | python_challenge/day_1/form.py:82-87 | the first visit has no popup, an empty message and green |
| VoterForm.FormSession.Submit | python_challenge/day_1/form.py:106-116 | a warning iff the name is blank, and then nothing changes; otherwise the message and colour are set and the flag is raised |
| VoterForm.FormSession.RenderPopup | python_challenge/day_1/form.py:121-133 | the popup is rendered iff the flag was set, and the flag is cleared |
| VoterForm.FormSession.Run | python_challenge/day_1/form.py:89-133 | the container is `blurred` iff the flag was set as the run started; a warning iff a blank name was submitted; a popup iff the flag was set or a non-blank name was submitted, showing that name's verdict; without a valid submission the stored message and colour are kept and a pending popup shows them; the flag ends cleared |
| VoterForm.FormSession.RunBlurringPopup | python_challenge/day_1/form.py:89-133 | as Run, but the container is `blurred` iff the popup is shown |
| VoterForm.ShownOnceUnblurred | python_challenge/day_1/form.py:89-133 | a submitted name shows its popup on that run only, and the container does not get the `blurred` class |
| VoterForm.NeverBlurred | python_challenge/day_1/form.py:90 | starting from a first visit, no sequence of runs ever gives the page container the `blurred` class |
| VoterForm.ShownOnceBlurred | python_challenge/day_1/form.py:89-133 | with the class chosen after the submission, the popup comes with the `blurred` container, on one run only |
| Weather.Show | week_1/python_assignment/weatherUpdate.py:29-36 | a missing value prints as `None` and a present one prints as itself |
| Weather.Current0 | week_1/python_assignment/weatherUpdate.py:20 | the entry the script reads: the first of `current_condition`, or `{}`; MissingCurrentCondition and OnlyFirstEntry state what that means for the report |
| Weather.ReadValues | week_1/python_assignment/weatherUpdate.py:20-27 | IndexError on `current_condition` iff it is the empty list, and on `weatherDesc` iff `current_condition` is not empty and the entry's `weatherDesc` is; otherwise the condition is the first `weatherDesc` value (empty when absent) and the six other values are those of the first entry, as printed |
| Weather.ReportLines | week_1/python_assignment/weatherUpdate.py:29-36 | the report has six lines |
| Weather.JoinLines | week_1/python_assignment/weatherUpdate.py:29-36 | each line followed by a line break; SplitJoin states that splitting the joined text at line breaks gives the lines back |
| Weather.FormatWttr | week_1/python_assignment/weatherUpdate.py:18-36 | IndexError iff `current_condition` or the entry's `weatherDesc` is an empty list, as the value reader says; otherwise the text opens with the condition line, and when no value contains a line break and the Celsius temperature contains no degree sign the reader recovers exactly the values printed |
| Weather.FirstIndex | week_1/python_assignment/weatherUpdate.py:29-36 | reader for the round trip, not in the script: the first occurrence of a character, or the length when it does not occur |
| Weather.StripAround | week_1/python_assignment/weatherUpdate.py:29-36 | reader for the round trip, not in the script: a recovered value, put back between its label and unit, gives the line |
| Weather.FirstIndexAfter | week_1/python_assignment/weatherUpdate.py:29-36 | reader for the round trip, not in the script: the first line break of a line followed by a break is at the line's end |
| Weather.SplitStep | week_1/python_assignment/weatherUpdate.py:29-36 | reader for the round trip, not in the script: splitting the text at line breaks gives the first line, then the rest |
| Weather.SplitJoin | week_1/python_assignment/weatherUpdate.py:29-36 | reader for the round trip, not in the script: splitting the joined report gives its lines back |
| Weather.StripWrapped | week_1/python_assignment/weatherUpdate.py:29-36 | reader for the round trip, not in the script: a value between a label and a unit is recovered exactly |
| Weather.SplitJoinedTemperatures | week_1/python_assignment/weatherUpdate.py:31 | the Celsius and Fahrenheit values are recovered from the temperature line |
| Weather.ReadReportLines | week_1/python_assignment/weatherUpdate.py:29-36 | each of the six printed lines gives its values back to the reader |
| Weather.ReadFormatted | week_1/python_assignment/weatherUpdate.py:18-36 | when no value contains a line break and the Celsius temperature contains no degree sign, the printed report reads back into exactly the values printed |
| Weather.MissingCurrentCondition | week_1/python_assignment/weatherUpdate.py:20-27 | without `current_condition`, every value prints as `None` and the condition as empty |
| Weather.OnlyFirstEntry | week_1/python_assignment/weatherUpdate.py:20 | entries after the first in `current_condition` do not affect the report |

## Findings

| source | as written | input that shows it | evidently intended | confidence | as-written member | corrected member |
|---|---|---|---|---|---|---|
| python_challenge/day_1/form.py:90 | the container's class is chosen from `show_popup` at line 90, before the submission at line 116 sets the flag, and line 133 clears the flag in the same run | first visit, submit name `Ann` with age 30: the popup is shown, but the page container never gets the `blurred` class of lines 23-25; only the overlay's own backdrop filter (line 43) softens the page | the container is `blurred` while the popup is shown (comment at line 89) | not executed | VoterForm.NeverBlurred | VoterForm.ShownOnceBlurred |

## Left out

- Unicode character classes: texts may hold any character, but the classes `\d` and `\s`, the case folding of `re.IGNORECASE` and the whitespace `str.strip` removes are taken over ASCII only. Python also accepts other digits, whitespace and case pairs there, and the model does not cover those.
- The digit limit of `int` is taken at CPython's default of 4300 digits (Python 3.11 and later). An interpreter without the limit, or with another setting of `sys.set_int_max_str_digits`, reads longer runs too.
- Splitwise.PhoneRows: its contract states the phone rows up to their order; the order is stated by Splitwise.PhoneRowsAppend together with the definition.
- `calculate_overall_score` (app.py:622-632) is not modelled, because its result depends on binary floating point and `round(…, 1)`.
- The clock: `datetime.now()` (app.py:790) is a `stamp` carried by each message of the stream.
- The agents, their prompts and the round-robin team in agents.py are not part of this model. The message stream is a parameter, and only the four agent names (app.py:738) are kept.
- Rendering is not modelled: Plotly figures, CSS, HTML markup, `st.progress`, status texts, the output containers (app.py:797-798), `st.rerun`, `st.balloons`, and the asyncio event loop.
- The progress fraction (app.py:793) is an exact real where Python has a float. With at most four completed agents the quotients 0, 0.25, 0.5, 0.75 and 1 are exact in binary floating point, so nothing is lost.
- Quiz.VerdictFor: `score >= len * 0.7` is a float comparison; it is modelled as the exact test 10·score >= 7·n.
- Quiz.QuizSession.Answer: the widget's `index=` lookup (quiz_app.py:87) only restores the displayed choice and is not modelled; the answer written is the option chosen, or none.
- Splitwise.Calculate: `round(…, 2)` and the text Python prints for a float are parameters (`round2`, `show`), so the model does not capture float division or rounding. The comparison with zero is made on the rounded value, as in the source.
- Splitwise: the pandas DataFrame display and the widgets' minimum values are not modelled; the count and the total are any integer and any real.
- Splitwise.EncodeSpaces: only spaces are encoded, as in the source; other characters that a URL would need escaped go into the link as they are.
- VoterForm: the age is any integer; the slider's range of 0 to 100 is not modelled.
- Weather: `get_wttr`, the network call, `argparse` and `main` are not modelled. JSON values other than strings or absent keys (null, numbers, non-list values) are not modelled either.
- The Playwright script under week_1/playwright is not part of this model.
