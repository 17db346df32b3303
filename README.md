# Attendance assistant — a verified Dafny model

This project models the query engine of the student attendance assistant, the chat widget
in `src/pages/student/Chatbot.tsx`. It covers:

- `generateResponse`, which lower-cases a free-text question, takes the first matching intent
  from an ordered chain and answers it from the student's attendance snapshot;
- `handleSend`, which logs the question and schedules the reply.

The model has five parts:

- **Projection arithmetic** (`projection.dfy`).
  - `calculateClassesForTarget` is `Projection.ClassesForTarget`. Its `Infinity` sentinel becomes
    `Needed.Unreachable`.
  - `calculateMissableClasses` is `Projection.MissableClasses`. Its negative results become
    `Missable.Deficit`. The Infinity and NaN it returns for a 0% threshold become `Unlimited` and
    `Undefined`.
  - The inline formulas for attending or missing more classes are `Projection.AttendMore` and
    `Projection.MissMore`.
  - The two-half history trend is `Trend.TrendOf`.
  - JavaScript's `0/0` is `Pct.NaN`. Every ordering comparison with it is false, as in IEEE 754.
- **Parameter extraction** (`text.dfy`): hand-written leftmost-match versions of the three
  regular expressions the engine uses, plus `includes`, `toLowerCase` and `trim`.
  - `(\d+)%` gives the threshold or target, 75 by default.
  - `\b(\d+)\b` gives a class count, 5 or 1 by default.
  - `in ([a-z]+)` gives the subject, `this course` by default.
- **Intent dispatch** (`intents.dfy`): the thirteen trigger predicates, with the source's exact
  strings, and the first-match chain `Intents.Classify`. It is proved equal to a table walk,
  `Intents.FirstMatch`.
- **Replies** (`assistant.dfy`, `replies.dfy`).
  - Each branch of `generateResponse` is a handler that returns an intent tag and the numbers
    its text shows.
  - `Assistant.Respond` is the whole function, including the no-snapshot short-circuit.
  - `replies.dfy` proves what the numbers in each reply mean.
- **Conversation** (`session.dfy`): the widget's `messages` log, `input` box and scheduled replies
  as the class `Session.Chat`.
  - Its invariant ties the i-th logged query to the i-th reply, delivered or pending.
  - Each reply is `Respond` applied to that query and the snapshot of that moment.

`scenarios.dfy` evaluates a few concrete cases from the definitions.

The snapshot (`Attendance.Snapshot`) carries attended and total counts, the attendance records,
the per-subject table and the optional count of remaining classes. Its `percentage` field is
`100 * attended / total`, or 0 when no class was held, as the backend computes it
(`backend/main.py:335`). `Snapshot.Valid()` is the data invariant `attended <= total`. Records
sent by the backend carry a date but no status field, so they appear as `Status.Unmarked`, which
never counts as present.

The code has no zero-class check: only a missing snapshot short-circuits (`Chatbot.tsx:47-49`). A zero-class
snapshot goes through the ordinary handlers, where `0/0` yields NaN. The model follows the code.
`Replies.TargetPlanWithoutClasses` shows the consequence: such a student asking to reach a target
strictly between 0 and 100% is told to attend 0 classes and end at NaN%.

The subject branch compares the percentage rounded to two decimals with 75 (`Chatbot.tsx:365-371`),
then recomputes the classes from the counts (`Chatbot.tsx:372-385`). A supplied percentage in
[74.995, 75) is rounded to 75.00, so the spare branch runs while the counts are still short.
`Replies.SubjectRiskAtRoundingBoundary` shows it: at 18749 of 25000 the reply says the student can
miss up to -4 more classes. `Replies.SubjectRiskMeaning` states the branch's meaning for entries
whose percentage agrees with their counts (`SubjectStats.Consistent()`); the table's entries are
supplied data and the model does not assume they are consistent elsewhere.

Three ordering facts of the chain are proved:

- `Intents.WhatIfMissNeverChosen`: every query that mentions "miss" or "skip" is already taken
  by the leaves branch (101-106), so the what-if-miss branch (254-312) is unreachable.
- `Intents.ClassesMissedOnlyNotAttended`: "missed" and "absences" are caught by the same leaves
  branch, so the classes-missed branch answers only "not attended".
- `Intents.SubjectTriggers`: "in history" is caught by the history branch before the subject
  branch.

## Model

| member | source | states |
|---|---|---|
| Attendance.Snapshot.Percentage | backend/main.py:335 | the percentage field is non-negative, at most 100 for a valid snapshot, and 0 when no class was held |
| Attendance.PresentCount | src/pages/student/Chatbot.tsx:330-331 | the number of present records never exceeds the number of records |
| Attendance.PresentCountAppend | src/pages/student/Chatbot.tsx:326-331 | counting present records over a concatenation adds the counts of the parts |
| Attendance.PresentCountZero | src/pages/student/Chatbot.tsx:330-331 | the present count is 0 exactly when no record is present |
| Attendance.PresentCountFull | src/pages/student/Chatbot.tsx:330-331 | the present count equals the length exactly when every record is present |
| Projection.Floor | src/pages/student/Chatbot.tsx:83 | Math.floor: the greatest integer not above x |
| Projection.Ceil | src/pages/student/Chatbot.tsx:69 | Math.ceil: the least integer not below x |
| Projection.Max0 | src/pages/student/Chatbot.tsx:84 | Math.max(0, x): at least x and at least 0, and equal to one of them |
| Projection.Rate | src/pages/student/Chatbot.tsx:150 | (part / whole) * 100 is NaN exactly when whole is 0; otherwise it is non-negative and at most 100 when part <= whole |
| Projection.ClassesForTarget | src/pages/student/Chatbot.tsx:57-62 | Unreachable exactly when the target is 100 or more |
| Projection.ClassesForTargetMinimal | src/pages/student/Chatbot.tsx:53-69 | for a target below 100 the count n reaches it, 100(a+n) >= P(t+n), and when n > 0, n-1 classes do not |
| Projection.ClassesForTargetPositive | src/pages/student/Chatbot.tsx:64-69 | the count is positive exactly when the student is below the target, 100a < Pt; otherwise it is 0 ("already achieved") |
| Projection.ClassesForTargetReaches | src/pages/student/Chatbot.tsx:148-150 | after attending the quoted count, the percentage computed by the projection formula is at least the target |
| Projection.MissableDeficitIff | src/pages/student/Chatbot.tsx:74-77 | a deficit is returned exactly when classes were held and 100a < thr * t |
| Projection.MissableDeficitMagnitude | src/pages/student/Chatbot.tsx:75-77 | the deficit's magnitude is calculateClassesForTarget(a, t, thr): at least 1 for thresholds below 100, Unreachable otherwise |
| Projection.MissableSpareExact | src/pages/student/Chatbot.tsx:79-84 | otherwise, for a positive threshold, the count k satisfies thr(t+k) <= 100a < thr(t+k+1): missing k classes keeps the threshold, missing k+1 does not |
| Projection.MissableSparePercent | src/pages/student/Chatbot.tsx:79-84 | the same bound read through the miss-more formula: after k misses the percentage is at least thr, after k+1 it is below |
| Projection.MissableZeroThreshold | src/pages/student/Chatbot.tsx:82-84 | Infinity (Unlimited) and NaN (Undefined) arise exactly for a 0% threshold, with attended > 0 and = 0 respectively |
| Trend.TrendOfSingle | src/pages/student/Chatbot.tsx:326-343 | with one record the first half is empty, its rate is 0/0 = NaN, and the trend is reported as consistent at NaN |
| Trend.TrendOfDirection | src/pages/student/Chatbot.tsx:326-343 | for n >= 2 records, split at floor(n/2): improving, declining or consistent exactly as the later half's present count times the earlier length is greater than, less than or equal to the earlier count times the later length |
| Trend.TrendImproving | src/pages/student/Chatbot.tsx:326-338 | no presence in the first half and some in the second gives an improving trend |
| Trend.TrendDeclining | src/pages/student/Chatbot.tsx:326-340 | full presence in the first half and some absence in the second gives a declining trend |
| Trend.TrendEvenSplit | src/pages/student/Chatbot.tsx:326-343 | two halves both at exactly 50% give a consistent trend |
| Text.Lower | src/pages/student/Chatbot.tsx:44 | toLowerCase keeps the length, leaves no upper-case letter, shifts each upper-case letter by 32 and keeps every other character |
| Text.LowerIdempotent | src/pages/student/Chatbot.tsx:363 | lower-casing an already lower-cased string changes nothing |
| Text.ContainsIff | src/pages/student/Chatbot.tsx:93-94 | includes(w) holds exactly when w occurs at some index |
| Text.TrimStart | src/pages/student/Chatbot.tsx:21 | the result is empty or starts with a non-whitespace character |
| Text.TrimStartEmpty | src/pages/student/Chatbot.tsx:21 | trimming the front leaves nothing exactly when the string is all whitespace |
| Text.TrimEmptyIff | src/pages/student/Chatbot.tsx:21 | trim() is empty exactly when the input is all whitespace |
| Text.RunEnd | src/pages/student/Chatbot.tsx:110 | the greedy \d+ from i stops at the first non-digit |
| Text.PercentNumberFromSpec | src/pages/student/Chatbot.tsx:110 | from index i on, a (\d+)% match is found exactly when one exists, and it is the leftmost one |
| Text.FirstPercentNumberSpec | src/pages/student/Chatbot.tsx:109-113 | the threshold is present exactly when some digit is followed by '%', and its value is the leftmost maximal digit run followed by '%' |
| Text.FirstStandaloneNumberSpec | src/pages/student/Chatbot.tsx:136-142 | a \b(\d+)\b match exists exactly when some digit run is bounded by non-word characters, and the count is the leftmost such run |
| Text.StandaloneNumberFromSpec | src/pages/student/Chatbot.tsx:136 | from index i on, the standalone number found is the leftmost bounded digit run |
| Text.StandaloneHasDigit | src/pages/student/Chatbot.tsx:254-261 | a query with a standalone number satisfies /\d+/ |
| Text.SubjectFromSpec | src/pages/student/Chatbot.tsx:358 | from index i on, an `in ([a-z]+)` match exists exactly when "in " followed by a letter occurs, and the captured word is the leftmost such letter run |
| Text.FirstSubjectSpec | src/pages/student/Chatbot.tsx:357-361 | the subject is captured exactly when "in " followed by a letter occurs anywhere, and it is the maximal letter run after the leftmost one |
| Intents.FirstMatchSpec | src/pages/student/Chatbot.tsx:93-611 | the table walk yields Help exactly when no entry matches, and otherwise the first matching entry |
| Intents.ClassifyIsFirstMatch | src/pages/student/Chatbot.tsx:93-611 | the if-chain of generateResponse equals the first-match walk over the thirteen intents in source order |
| Intents.ClassifySpec | src/pages/student/Chatbot.tsx:93-611 | the help text is chosen exactly when no trigger holds; any other intent's trigger holds and no earlier trigger does |
| Intents.WhatIfMissNeverChosen | src/pages/student/Chatbot.tsx:101-106 | no query reaches the what-if-miss branch of lines 254-255, because its triggers "miss" and "skip" are leaves triggers |
| Intents.ClassesMissedOnlyNotAttended | src/pages/student/Chatbot.tsx:212-214 | the classes-missed branch answers only queries containing "not attended" |
| Intents.ProjectionTriggers | src/pages/student/Chatbot.tsx:129-131 | the projection branch is reached only through "if i attend" or "project", since will+percentage is taken by line 95 |
| Intents.SubjectTriggers | src/pages/student/Chatbot.tsx:352-354 | the subject branch never answers a query containing "in history", which the history branch at line 315 takes first |
| Assistant.Round2Close | src/pages/student/Chatbot.tsx:88-90 | the two-decimal rounding moves a value by at most 0.005 |
| Assistant.Round2BelowMinimum | src/pages/student/Chatbot.tsx:365-371 | a percentage rounded to hundredths is below 75 exactly when it is below 74.995 |
| Assistant.LastFive | src/pages/student/Chatbot.tsx:320 | slice(-5) holds the last min(5, n) records |
| Assistant.PercentageHandler | src/pages/student/Chatbot.tsx:96-97 | the reply belongs to the current-percentage intent |
| Assistant.LeavesHandler | src/pages/student/Chatbot.tsx:108-125 | the reply belongs to the leaves intent; its meaning is stated by the Projection.Missable* lemmas |
| Assistant.ProjectionHandler | src/pages/student/Chatbot.tsx:133-164 | the reply belongs to the projection intent; its meaning is stated by Replies.ProjectionNoteSound |
| Assistant.RiskHandler | src/pages/student/Chatbot.tsx:174-200 | the reply belongs to the at-risk intent; its meaning is stated by Replies.RiskSafeQuotesSpare and Replies.RiskBehindQuotesNeeded |
| Assistant.AttendedHandler | src/pages/student/Chatbot.tsx:208 | the reply belongs to the classes-attended intent |
| Assistant.MissedHandler | src/pages/student/Chatbot.tsx:216-218 | the reply belongs to the classes-missed intent |
| Assistant.TargetHandler | src/pages/student/Chatbot.tsx:227-250 | the reply belongs to the reach-target intent; its meaning is stated by Replies.TargetPlanMinimal and Replies.TargetImpossibleBestCase |
| Assistant.WhatIfMissHandler | src/pages/student/Chatbot.tsx:258-311 | the reply belongs to the what-if-miss intent; its meaning is stated by Replies.MissImpactSound |
| Assistant.HistoryHandler | src/pages/student/Chatbot.tsx:319-348 | the reply belongs to the history intent; Trend.TrendOfDirection states the trend it carries |
| Assistant.SubjectHandler | src/pages/student/Chatbot.tsx:357-391 | the reply belongs to the subject intent; its meaning is stated by Replies.SubjectLookup, Replies.SubjectReplyContents, Replies.SubjectRiskMeaning and Replies.SubjectDefault |
| Assistant.ImprovementHandler | src/pages/student/Chatbot.tsx:399-452 | the reply belongs to the improvement intent; its meaning is stated by Replies.ImprovementAdviceReachable |
| Assistant.AnalyticsHandler | src/pages/student/Chatbot.tsx:461-542 | the reply belongs to the analytics intent; its meaning is stated by Replies.AnalyticsConsistent and Replies.AnalyticsScenariosOrdered |
| Assistant.StatusHandler | src/pages/student/Chatbot.tsx:551-607 | the reply belongs to the status intent; its meaning is stated by Replies.SummaryRequirementSound |
| Assistant.Respond | src/pages/student/Chatbot.tsx:43-611 | a missing snapshot, and only that, gives the fixed no-data reply; otherwise the reply comes from the handler of the intent that the chain picks for the lower-cased query |
| Replies.SnapshotRate | src/pages/student/Chatbot.tsx:74 | with classes held, the engine's (a / t) * 100 is the snapshot's percentage field |
| Replies.SnapshotBelow | src/pages/student/Chatbot.tsx:183 | the percentage is below a threshold exactly when 100a < thr * t, or when no class was held and the threshold is positive |
| Replies.RiskSafeQuotesSpare | src/pages/student/Chatbot.tsx:196-199 | "doing well" carries a non-negative buffer and never a deficit; for a positive threshold the count still keeps the threshold after that many misses |
| Replies.RiskBehindQuotesNeeded | src/pages/student/Chatbot.tsx:183-195 | "below the minimum" carries a positive deficit; "impossible" is said exactly for thresholds of 100 or more; otherwise, once classes were held, at least one class is quoted, and attending it reaches the threshold |
| Replies.TargetPlanMinimal | src/pages/student/Chatbot.tsx:237-250 | "already achieved" exactly when the percentage is at or above the target; once classes were held, a plan quotes at least one class, reaches the target, and one class fewer would not |
| Replies.TargetImpossibleBestCase | src/pages/student/Chatbot.tsx:244-245 | "impossible" only for targets of 100 or more; the 500-class best case is at most 100% and below the target once any class was missed |
| Replies.TargetPlanWithoutClasses | src/pages/student/Chatbot.tsx:237-250 | with no class held, a target strictly between 0 and 100 gets a plan of 0 classes ending at NaN |
| Replies.ProjectionNoteSound | src/pages/student/Chatbot.tsx:156-162 | "would bring you above" is said only for a student below 75% lifted to it; "still need" quotes at least one class, which reaches 75% from the projected state |
| Replies.MissImpactSound | src/pages/student/Chatbot.tsx:267-309 | missing classes never raises the percentage and the quoted decrease is never negative; a warning comes only when the new percentage is below the threshold, "put you below" only when the student is at or above it now, and "further reduce" only when below |
| Replies.ImprovementAdviceReachable | src/pages/student/Chatbot.tsx:403-452 | neither "not mathematically possible" branch is reachable; between 75% and 90% at least one class is asked for, and below 75% too once classes were held |
| Replies.AnalyticsConsistent | src/pages/student/Chatbot.tsx:498-527 | the cannot-reach standing never occurs and projections are always given; with classes held, below requirement exactly when the missable count is a deficit, both quoting the same positive number |
| Replies.AnalyticsScenariosOrdered | src/pages/student/Chatbot.tsx:524-526 | with a remaining-class count, attending half of the remaining classes never projects above attending all of them, which never exceeds 100%; both are NaN together |
| Replies.SummaryRequirementSound | src/pages/student/Chatbot.tsx:576-583 | the summary never says "mathematically impossible" or quotes a deficit as missable, and it asks for at least one class once classes were held |
| Replies.SubjectDefault | src/pages/student/Chatbot.tsx:357-361 | the subject is "this course" exactly when no "in <letter>" occurs in the query |
| Replies.SubjectLookup | src/pages/student/Chatbot.tsx:363-390 | the lookup key is the subject itself; "no subject-specific data" comes exactly when the table lacks it |
| Replies.SubjectReplyContents | src/pages/student/Chatbot.tsx:363-388 | for a subject in the table, the reply shows that entry, its percentage rounded to hundredths, and the entry's risk line |
| Replies.SubjectRiskMeaning | src/pages/student/Chatbot.tsx:367-386 | for an entry whose percentage agrees with its counts: the "need to attend" line comes exactly below 74.995%, with the fewest further classes that reach 75% (zero only when no class was held); at 75% or more the spare count is the most classes that can be missed while staying at 75%; between 74.995% and 75% the spare branch is taken with a deficit of at least one class |
| Replies.SubjectRiskAtRoundingBoundary | src/pages/student/Chatbot.tsx:365-386 | 18749 of 25000 classes is 74.996%, rounded to 75.00, so the reply says the student can miss up to -4 more classes |
| Session.Chat.constructor | src/pages/student/Chatbot.tsx:6-9 | the log starts with the greeting alone, with an empty input box and nothing scheduled |
| Session.Chat.SetInput | src/pages/student/Chatbot.tsx:667 | typing replaces the input box and keeps the log and the schedule |
| Session.Chat.Send | src/pages/student/Chatbot.tsx:20-34 | blank input changes nothing; otherwise the query is appended to the log, its reply against the current snapshot is scheduled, and the box is cleared, keeping the query-reply invariant |
| Session.Chat.Deliver | src/pages/student/Chatbot.tsx:30-32 | the oldest scheduled reply is appended to the log as a bot turn, keeping the same invariant |
| Session.QueriesAppend | src/pages/student/Chatbot.tsx:24 | the queries of a concatenated log are the queries of the parts, in order |
| Session.BotRepliesAppend | src/pages/student/Chatbot.tsx:31 | the replies of a concatenated log are the replies of the parts, in order |
| Scenarios.SeventyFourOfHundred | src/pages/student/Chatbot.tsx:52-70 | 74 of 100 needs 4 more classes to reach 75% |
| Scenarios.TwentyOfForty | src/pages/student/Chatbot.tsx:73-77 | 20 of 40 is a deficit of 40 classes against 75% |
| Scenarios.LowerPercentageQuery | src/pages/student/Chatbot.tsx:44 | "What's my attendance?" lower-cases to "what's my attendance?" |
| Scenarios.PercentageQueryMatches | src/pages/student/Chatbot.tsx:94 | "what's my attendance?" contains "my attendance" |
| Scenarios.RespondPercentage | src/pages/student/Chatbot.tsx:93-97 | a lower-cased query containing "my attendance" is answered by the current-percentage handler |
| Scenarios.AskPercentage | src/pages/student/Chatbot.tsx:93-97 | "What's my attendance?" at 30 of 40 gets the current-percentage reply at 75% |
| Scenarios.NoPercentSign | src/pages/student/Chatbot.tsx:109-113 | a query without '%' gets no threshold from the query |
| Scenarios.NotPercentageQuery | src/pages/student/Chatbot.tsx:93-95 | a query without 't', 'p' and 'd' triggers no percentage intent |
| Scenarios.MissSelectsLeaves | src/pages/student/Chatbot.tsx:93-106 | past the percentage triggers, any "miss" selects the leaves branch |
| Scenarios.LowerMissQuery | src/pages/student/Chatbot.tsx:44 | "How many classes can I miss?" lower-cases to "how many classes can i miss?" |
| Scenarios.MissQueryLetters | src/pages/student/Chatbot.tsx:93-110 | "how many classes can i miss?" has no 't', 'p', 'd' or '%' |
| Scenarios.MissQueryContainsMiss | src/pages/student/Chatbot.tsx:104 | "how many classes can i miss?" contains "miss" |
| Scenarios.RespondLeaves | src/pages/student/Chatbot.tsx:101-126 | a leaves-classified query is answered by the leaves handler |
| Scenarios.AskMissable | src/pages/student/Chatbot.tsx:101-126 | "How many classes can I miss?" at 20 of 40 gets the default 75% threshold and a 40-class deficit |

## Left out

- The React rendering, the open/close toggle and scroll-into-view: presentation only.
- The 500 ms `setTimeout` (`Chatbot.tsx:30-32`) is the separate step `Session.Chat.Deliver`. Timers of equal delay fire in order, so scheduled replies form a queue. Real time is not modelled.
- Session.Chat.Send: assumes each send sees the committed log. `Chatbot.tsx:24` sets the log from the render's `messages` value, not with a functional update, while the reply at `Chatbot.tsx:31` uses the `prev =>` form. A reply whose timer has fired but whose update is not yet rendered can therefore be overwritten by the next send, and the query-reply pairing of `Session.Chat.Valid` would then fail. React's batching order is not modelled.
- `handleKeyPress` (`Chatbot.tsx:37-41`) calls `handleSend` on Enter. It is the same step as `Session.Chat.Send`.
- Reply wording: each reply is an intent tag with its numeric payload. The text, the emoji and `toLocaleDateString` are not modelled.
- `formatPercentage` (`toFixed(2)` and `parseFloat`) is applied to displayed numbers only. Displayed values are left unrounded, except in the subject branch (`Chatbot.tsx:365-371`), where the rounded value drives the risk decision. There it is `Assistant.Round2`, ties away from zero.
- IEEE 754 floating point: percentages and quotients are exact reals. Rounding errors of `a / t * 100`, and of the quotients in the two helpers, are not modelled. The fixed levels the code compares against, 75 and 90, are not affected: a ratio of exactly 3/4 or 9/10 gives exactly 75 or 90 in double arithmetic. A threshold named in the query can be affected. At 57 of 100, the double `57 / 100 * 100` is 56.99999999999999, so the query "am I at risk at 57%" gets the at-risk reply "0% below ... attend at least 0 more" (`Chatbot.tsx:183-190`), while `Assistant.RiskHandler` answers that the student is safe.
- `parseInt` is exact: digit strings beyond 2^53 lose precision in JavaScript, not in the model.
- `toLowerCase` and the `/i` flag handle ASCII letters only. Unicode case mapping is not modelled.
- The per-subject lookup `subjectWise[key]` is a map lookup. JavaScript's truthiness of the stored object and inherited property names such as `constructor` are not modelled.
- Snapshots with more attended than held classes: `Assistant.Respond` and `Session.Chat.Send` require `Snapshot.Valid()` (`attended <= total`), and so do the handlers that project percentages and `Assistant.MissedHandler`, for its `total - attended`. The backend does not enforce it. Attended is the number of attendance records (`backend/main.py:334`), and total counts generated QR codes (`backend/main.py:218`). Marking checks for a recent record and inserts a new one in two separate steps (`backend/main.py:249-258`, `309`), and the QR payload is evaluated as given (`backend/main.py:265`). So attended can exceed total, even with total 0. JavaScript then divides a positive count by 0 and gets Infinity, which the model's percentages cannot represent.
- `totalRemainingClasses` absent from the snapshot gives `undefined` arithmetic, modelled as NaN projections.
- `backend/main.py` (database, HTTP, QR codes, geolocation) and the other front-end files are not part of this model, except for the percentage formula at `backend/main.py:335`.
- Assistant.PercentageHandler: its contract states only the intent of the reply; the payload is the snapshot's percentage and counts as given.
- Assistant.AttendedHandler: its contract states only the intent of the reply; the payload is the snapshot's counts and percentage as given.
- Assistant.MissedHandler: its contract states only the intent of the reply; the payload is total minus attended and 100 minus the percentage.
- Assistant.HistoryHandler: its contract states only the intent of the reply; the trend it carries is described by the Trend lemmas.
