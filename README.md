# Classroom feedback store — a Dafny model

This project models the in-browser core of the classroom feedback tool. A
teacher starts a session (subject, teacher, topic). Students submit an
understanding rating from 1 to 5 and a comment under a session id. The page
keeps the running session, an archive of all feedback and the student's
current rating pick. From the running session's responses it derives a rating
histogram, a timeline of the latest ratings, the response count and average,
a list of the latest comments and a CSV export.

Modules:

- `FeedbackModel` (`feedback_model.dfy`): ratings (`Rating`, 1..5), timestamps
  (opaque, represented by their ISO 8601 text), `Response`, `Session`, the
  archive entry `Record`, and the ownership invariant `Owned`: every response a
  session holds carries that session's id.
- `Csv` (`csv.dfy`): the writer the export uses (cells joined with `,`, rows
  joined with a line feed, a quoted cell with every `"` doubled), and a reader
  that reads every field section 2 of RFC 4180 allows, with a line feed rather
  than CRLF as the record separator (what the export emits), and is lenient elsewhere
  (a quote inside an unquoted field, text after a closing quote and an unclosed
  quoted field are accepted). The reader is the
  independent partner of the writer: `ParseWrite` proves that reading written
  rows gives back their values.
- `Views` (`views.dfy`): the displays, as functions over a response list, plus
  the histogram loop as a method (`RatingCounts`), and the lemmas about them.
- `App` (`app.dfy`): class `FeedbackApp`. Its fields `currentSession`,
  `feedbackData` and `selectedRating` mirror the page's three module-level
  variables. Its methods are the page's actions. Each one states its whole new
  state and keeps `Valid()`: the selected rating is in 0..5, and a running
  session has a `SESS` id, three non-blank fields, and owns all its responses,
  and every archived response carries a non-empty session id.

Inputs the model takes as parameters: form values arrive already trimmed. The
random part of a session id, the clock, the confirmation dialog's answer, the
one-in-ten chance of the simulated live feed and the random demo choices are
parameters too.

Behaviour worth noting, as the code has it. Sessions are created in the page, without a server. Session ids are
`"SESS"` plus a random part, not guaranteed unique. A submission is archived
whether or not its id names a session. Starting a new session discards the
running one without archiving its responses.

## Model

| member | source | states |
|---|---|---|
| App.FeedbackApp.constructor | script.js:2-4 | The page starts with no session, an empty archive and no rating picked (0). |
| App.FeedbackApp.InitializeDemoData | script.js:18-26 | The archive becomes exactly the five demo entries in order, each with its session id, rating, comment, subject and its own clock reading, and no teacher or topic; nothing else changes. |
| App.FeedbackApp.StartSession | script.js:90-107 | A session starts if and only if subject, teacher and topic are all non-blank. It then holds those three fields, a `SESS`-prefixed id, the start time and no responses. Otherwise the session is unchanged. The archive and the rating pick never change. |
| App.FeedbackApp.HandleRatingSelection | script.js:332-341 | The picked rating replaces any earlier pick; session and archive are unchanged. |
| App.FeedbackApp.SubmitFeedback | script.js:344-374 | A blank id is rejected first, then a missing rating (0); a rejection changes nothing. An accepted submission appends exactly one record (id, rating, comment, time) to the archive. It appends the same response to the running session if and only if a session runs and its id equals the submitted id; otherwise the session is unchanged. Ownership is preserved. |
| App.FeedbackApp.ResetStudentForm | script.js:387-395 | The rating pick returns to 0; session and archive are unchanged. |
| App.FeedbackApp.EndSession | script.js:542-580 | With no session or no confirmation nothing changes. Otherwise the archive grows by one tagged copy per response, in order, carrying the session's subject, teacher and topic, and the session is gone. |
| App.FeedbackApp.AddDemoFeedback | script.js:586-607 | During a session, appends one response with the session's own id, a rating in 1..5 and a stock comment; without a session nothing changes. Ownership is preserved. |
| App.FeedbackApp.LiveUpdateTick | script.js:478-488 | When the tick fires during a session, appends one response with the session's own id, a rating in 1..5 and a stock comment; otherwise nothing changes. |
| App.FeedbackApp.UpdateCharts | script.js:398-420 | Without a session there is no chart data. Otherwise bucket 5 - r holds the number of responses rated r; the timeline plots the latest ten ratings in order. Its labels are the numbers the page's formula writes after the `R` prefix: from ten responses on they equal the 1-based numbers of the plotted responses, and with one to nine responses the first label is below 1. |
| App.FeedbackApp.UpdateStats | script.js:423-436 | Without a session there is nothing. Otherwise the count is the number of responses, and an average exists exactly when there is a response. Its sum is the rating sum, its count is the number of responses, and count <= sum <= 5 * count. |
| App.FeedbackApp.UpdateFeedbackList | script.js:439-452 | Without a session, or with no response, the list is empty. Otherwise it holds the latest min(5, n) responses, newest first. |
| App.FeedbackApp.ExportFeedback | script.js:497-505 | There is a download exactly when a session has at least one response; its content is the session's CSV and its name `feedback_<id>.csv`. |
| App.MatchedSubmissionArchivedTwice | script.js:344-580 | From any valid page state (demo entries and earlier sessions' records included): start, pick, a submission under the session's id, then a confirmed end. The archive is what it was followed by exactly that response twice, first untagged and then tagged with subject, teacher and topic; the session is gone. |
| FeedbackModel.Archive | script.js:570-576 | One archived record per response of the session, in order: record i holds response i, tagged with the session's subject, teacher and topic. |
| FeedbackModel.ArchiveKeepsSession | script.js:570-576 | Every archived copy of an owned session's responses names that session. |
| Views.RatingCounts | script.js:402-406 | The loop yields five buckets; bucket 5 - r is the multiplicity of rating r among the responses' ratings. |
| Views.CountIsMultiplicity | script.js:404-406 | The per-rating count equals the rating's multiplicity in the multiset of ratings. |
| Views.HistogramTotal | script.js:402-409 | The five buckets add up to the number of responses. |
| Views.SumFromHistogram | script.js:432 | The rating sum equals the histogram weighted by rating, so the average agrees with the doughnut chart. |
| Views.SumBounds | script.js:432 | The rating sum lies between n and 5n, so the average lies between 1 and 5. |
| Views.Summary | script.js:426-435 | The count is the number of responses. The average exists if and only if there is a response. It is kept exactly, as the rating sum over the count, and lies in [1, 5]. |
| Views.TimelineRatings | script.js:413-415 | The timeline holds the last min(10, n) ratings in their original order. |
| Views.TimelineIsSuffix | script.js:413-415 | The timeline is the tail of the full rating sequence. |
| Views.TimelineSlides | script.js:413-415 | One more response appends its rating to the timeline, and drops the oldest point once ten are shown. |
| Views.TimelineLabelsAsWritten | script.js:413-415 | The formula as written (the number after the `R`) gives one label per plotted point, and the labels are consecutive; `TimelineLabelsAsWrittenBelowOne` shows what they are below ten responses. |
| Views.TimelineLabelsAsWrittenBelowOne | script.js:414 | As written, with fewer than ten responses the first label is below 1, so it names no response. |
| Views.TimelineLabelsAsWrittenOneResponse | script.js:414 | As written, a single response is labelled -8. |
| Views.TimelineLabels | script.js:414 | Corrected labels: one per plotted point, consecutive, the last one equal to the number of responses, so each point carries the 1-based number of the response it plots (and that response has the plotted rating). |
| Views.TimelineLabelsAgreeWhenFull | script.js:414 | From ten responses on, the label formula as written and the corrected one agree. |
| Views.RecentFeedback | script.js:452 | The feedback list holds the last min(5, n) responses, newest first. |
| Views.RecentFeedbackSlides | script.js:452 | One more response goes to the top of the list, and the bottom one drops out once five are shown. |
| Views.RatingText | script.js:515 | A rating is written as one digit whose value is the rating. |
| Views.GenerateCsv | script.js:508-523 | The export is the header row and one row per response, written as CSV; `CsvRoundTrip` states what reading it back gives. |
| Views.CsvRoundTrip | script.js:508-523 | Reading the export back gives the 7-field header, then one 7-field record per response in order. Each record holds the session's id, subject, teacher and topic, the rating digit, the exact comment and the timestamp. |
| Views.CommentCellRoundTrip | script.js:516 | The comment cell is the comment in double quotes with inner quotes doubled, and un-doubling its inside gives the comment back. |
| Csv.Escape | script.js:516 | Doubles every double quote; `UnescapeEscape` proves that un-doubling recovers the text. |
| Csv.UnescapeEscape | script.js:516 | Un-doubling the quotes of an escaped text recovers the text. |
| Csv.ReadQuotedEscape | script.js:516 | A quoted, escaped text reads back as the text, and reading stops at its closing quote (section 2, rule 7 of RFC 4180). |
| Csv.ReadRecordRow | script.js:521 | A row joined with commas reads back as its cell values, field by field. |
| Csv.Write | script.js:520-522 | The rendered rows joined with line feeds; `ParseWrite` proves that reading them back gives their values. |
| Csv.ParseWrite | script.js:520-522 | Rows joined with line feeds read back as their values, row by row. |

## Findings

| source | as written | input that shows it | evidently intended | confidence | as-written member | corrected member |
|---|---|---|---|---|---|---|
| script.js:414 | the timeline point at `index` is labelled `R${responses.length - 9 + index}` | a session with one response: its only point is labelled `R-8` (three responses give `R-6`, `R-5`, `R-4`) | each point is labelled with the 1-based number of its response, `responses.length - recentResponses.length + 1 + index`; this agrees with the formula once ten responses are in | high; not executed | Views.TimelineLabelsAsWrittenOneResponse | Views.TimelineLabels |

`Views.TimelineLabelsAsWritten` is the formula as written, and `App.FeedbackApp.UpdateCharts` hands it to the chart as the page does. Its contract also states where the formula goes wrong (a first label below 1 for one to nine responses) and that it agrees with the corrected `Views.TimelineLabels` from ten responses on (`Views.TimelineLabelsAgreeWhenFull`).

## Left out

- Views.CsvRoundTrip: holds only when the session id, subject, teacher and topic contain no comma, no double quote and no line feed. The export writes those fields unquoted, so a subject such as `Maths, Year 9` reads back as an extra field.
- Page structure and visibility toggles are not modelled: `style.display`, `classList`, `innerHTML`, tab switching, the keyboard, resize and visibility listeners (script.js:12-82, 614-658). This includes the session-input handler, which only shows or hides the form (script.js:320-329), and the URL-parameter prefill (script.js:47-56).
- The timeline labels are kept as numbers: the constant `R` prefix of the label text (script.js:414) is dropped.
- Chart.js construction and updates, the QR-code drawing and the Blob download are library calls. The model stops at the data handed to them. The chart-update guard on the chart objects is folded into the session check, because the charts exist once any session has started.
- Timers and `Math.random` are parameters. These are the session id's random part (its base-36 rendering and upper-casing are not modelled), the live feed's one-in-ten chance, and the demo rating and comment picks.
- The displayed average (`toFixed(1)`) and the response rate (`Math.round(n * 3.33)`, capped at 100) are floating-point display. The model keeps the average as an exact sum and count, and leaves the rate out.
- `Date` values are opaque timestamps, represented by their ISO text. `toLocaleTimeString` in the feedback list is not modelled.
- The HTML of the feedback list is not modelled: the rating captions and the optional comment element (script.js:453-469).
- `parseInt` of a rating option yielding `NaN` is not modelled; rating options carry 1..5.
- Alerts and the confirmation dialog are not modelled as I/O. Alerts become the methods' outcomes, and the dialog's answer becomes a parameter.
- The console helpers (script.js:661-666) are not modelled. A session is a value here, so handing out the live session object (aliasing) is not captured.
- server.js is not modelled. It is HTTP routing over a document store, and its one computation (the average with `|| 0`) depends on floating-point `NaN`.
