# FitAI weight history and prompt pipeline, in Dafny

FitAI is a single Streamlit script (`main.py`). The user records body weights
in a session list. They can upload or take a photo. On every interaction the
script builds a prompt and asks a generative model for a fitness and diet
recommendation. This project models the part of the script that has logic of
its own:

- **The weight history** (`Ledger`). `weight_data` is a class field of type
  `seq<Record>`. `AddWeight` appends one `{Date, Weight}` record. `Submit` is
  the form handler: it appends only a strictly positive weight. The clock
  (`datetime.now()`) is a parameter.
- **The chronological view** (`Chronology`). This is `sorted(weight_data, key=Date)`,
  modelled as a stable insertion sort on timestamps. The model proves it is
  a permutation, ascending and stable. It also proves it is the only arrangement
  with those properties, and that insertion order matters only among records
  with the same timestamp.
- **The weight summary** (`WeightSummary`). This is `prepare_weight_info`: a
  structured `Summary` (no data, or the previous weight if any plus the current
  weight) and its rendering to text. The summary is also proved equal to a
  reference that does not sort: "the latest record, then the latest of the rest".
- **Prompt, image and model call** (`Advisor`). These are the image precedence
  (upload, then camera, then a 400×200 grey placeholder), the prompt (fixed
  head, summary, fixed tail), the request (the image goes along exactly when
  a real photo exists) and the analysis text (the answer, or
  `"An error occurred: " + message`).

Timestamps are the six fields of the `"%Y-%m-%d %H:%M:%S"` text, compared
lexicographically. That is the order of the parsed date-times the source
sorts by. Weights are integers in tenths of a kilogram. The text of a weight
(Python's `str` of a float) is the parameter `show`. The generative model
is a function parameter from requests to replies.

Two details are kept as the code has them:

- The positivity guard sits in the submit handler (main.py:40), not in
  `add_weight`. So `AddWeight` is unguarded, and only `Submit` keeps the
  all-positive invariant.
- With a single record the source still puts the unit after the placeholder.
  The rendered line is `**Previous Weight:** No previous weight recorded. kg`.
  `Render` reproduces that.

Files: `options.dfy` (Option), `ledger.dfy`, `chronology.dfy`, `summary.dfy`,
`advisor.dfy`.

## Model

| member | source | states |
|---|---|---|
| `Ledger.WeightLog.constructor` | main.py:21-22 | a new session's history is empty (and trivially all-positive) |
| `Ledger.WeightLog.AddWeight` | main.py:25-29 | exactly one record `(now, weight)` is appended at the end, earlier records unchanged; the all-positive invariant survives exactly when the weight is positive |
| `Ledger.WeightLog.Submit` | main.py:39-44 | weight > 0: the record is appended and success reported; weight ≤ 0: history unchanged and the invalid-weight message reported; a history that was all-positive stays all-positive |
| `Chronology.SortByDate` | main.py:69 | the sorted history is a permutation of the history (same multiset) and ascending by timestamp |
| `Chronology.InsertChronological` | main.py:69 | inserting one record into an ascending history keeps it ascending |
| `Chronology.SortStable` | main.py:69 | stability: for every timestamp, the records carrying it appear in the sorted history in insertion order |
| `Chronology.SortUnique` | main.py:69 | any ascending sequence with the same per-timestamp subsequences is the sorted history, so each stable ascending sort agrees with this one |
| `Chronology.SortIgnoresInterleaving` | main.py:69 | two histories with the same records per timestamp, in the same relative order, sort identically whatever their interleaving |
| `Chronology.SwapDifferentDates` | main.py:69 | exchanging two neighbouring records with different timestamps does not change the sorted history |
| `Chronology.LatestIndex` | main.py:69-71 | a scan in insertion order finds a record that is not earlier than any other and is the last inserted of its timestamp |
| `Chronology.SortPeelLatest` | main.py:69-71 | that latest record is the last element of the sorted history, preceded by the sorted history of the others |
| `WeightSummary.Summarize` | main.py:65-72 | empty history exactly when there is no data; a previous weight exactly when there are two or more records; with one record, no previous weight and that record's weight as current |
| `WeightSummary.SummarizeIsLatestTwo` | main.py:69-71 | the summary equals the sort-free reference: current = latest record's weight, previous = latest weight among the rest |
| `WeightSummary.LatestTwoRecords` | main.py:69-71 | with two or more records, current is the latest record's weight and previous the weight of the latest among the others |
| `WeightSummary.SummaryIgnoresInterleaving` | main.py:69-71 | the summary depends on insertion order only among records with equal timestamps |
| `WeightSummary.TwoRecords` | main.py:69-72 | two records with t1 < t2, inserted in either order: previous is the t1 weight, current the t2 weight |
| `WeightSummary.Render` | main.py:66-72 | the text is the no-data literal exactly for the no-data summary, for every rendering of weights; otherwise it is the previous label, then the previous weight (or the no-previous literal), then the current label, the current weight and the unit, each at its fixed position |
| `WeightSummary.WeightInfo` | main.py:65-73 | `"No weight data available."` exactly for the empty history; with one record, the previous line holds `"No previous weight recorded."` and the current line that record's weight; with two or more, the previous line holds the weight of the latest record among all but the latest, and the current line the latest record's weight |
| `Advisor.SelectImage` | main.py:54-59 | the upload wins over the camera photo; the 400×200 RGB(200,200,200) placeholder is chosen exactly when there is no photo |
| `Advisor.Prompt` | main.py:79-95 | the prompt is the fixed head, then the summary at a fixed position, then the fixed tail |
| `Advisor.PromptInjective` | main.py:79-95 | equal prompts come from equal summaries |
| `Advisor.BuildRequest` | main.py:99-102 | the image is sent exactly when an upload or a camera photo is present; it is then the selected image, never the placeholder |
| `Advisor.Analysis` | main.py:104-106 | an answer is shown verbatim; a failure with message m becomes exactly `"An error occurred: " + m` |
| `Advisor.FailureLooksLikeAnswer` | main.py:104-106 | a failure's text cannot be told from an answer that reads the same |
| `Advisor.ServiceFailingEverywhere` | main.py:76-106 | a model call that fails with message m on every request gives `"An error occurred: " + m` for every history and photo |
| `Advisor.EmptySessionAnalysis` | main.py:66-67 | with an empty history and no photo, the analysis is the reply to the no-data prompt sent alone |
| `Advisor.AnalysisIgnoresInterleaving` | main.py:69-106 | the analysis depends on insertion order only among records with equal timestamps |
| `Advisor.EmptySessionWithoutPhoto` | main.py:66-67 | empty history and no photo: the model is asked with the prompt alone, and the prompt carries `"No weight data available."` |
| `Advisor.TimeoutFailure` | main.py:105-106 | a call failing with "timeout" yields `"An error occurred: timeout"` |

## Left out

- Streamlit layout, widgets, tabs and the display of messages (main.py:15-19, 33-37, 47-53, 61, 109-136) are user interface. `Submit` returns which message would be shown. A form that was not submitted changes nothing, so it is not modelled as a call.
- The progress tab's pandas table and chart (main.py:114-121) are presentation. Their sort is not guaranteed stable.
- The advice sentence chosen by the same photo test (main.py:125-132) is presentation.
- Image decoding (`Image.open`) and its failures are not modelled. An image is only tagged with the bytes it came from.
- `load_dotenv`, the API key, the model configuration and `generate_content` (main.py:9-13, 100-102) are foreign calls. The model is a parameter from requests to replies.
- `datetime.now`, `strftime` and `strptime` are left out. The timestamp is a parameter already in parsed form. Field ranges (months 1-12 and so on) are not constrained, because the order does not depend on them.
- Python float weights and their `str` formatting in the f-string are not modelled. Weights are integers in tenths of a kilogram, and the text of a weight is the parameter `show`.
- Advisor.Analysis: a plain-string reply and a response object's `text` are merged into one `Answer` case. An exception raised while reading `text` is a `Raised` reply, because the same handler catches it.
