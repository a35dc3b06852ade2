# Market headline sentiment: a Dafny model

This project models the headline → score → signal pipeline of a small
market-sentiment tool. The tool has two entry points, and each has its own
copy of the pipeline.

- **Feed path** (`news_sentiment.py`, module `NewsSentiment`). It keeps the
  titles of the first five feed entries. It lower-cases each headline and
  scores it: +1 for each of eight positive keywords found anywhere in the
  text, and -1 for each of eight negative keywords. It labels the score
  Positive, Negative or Neutral by its sign, maps the label to BUY, SELL or
  HOLD, and builds one result row per headline, in input order.
- **Dashboard path** (`app.py` lines 57-111, module `Dashboard`). It looks
  at the first ten news records. For each one it extracts a headline: the
  record's `title`, or, when that is None, the `title` of a dictionary stored
  under `content`. It skips records without a non-empty headline. It scores
  each kept headline with a polarity estimator and classifies the score with
  strict thresholds at ±0.1. Scores and rows grow in lockstep. When at least
  one row exists, it averages the scores and classifies the average with the
  same thresholds.

Module `Text` holds the two string primitives the feed scorer uses: ASCII
lower-casing, and substring search proved equal to "some slice equals the
word".

The polarity estimator is a parameter of type `string -> real`. Scores are
exact reals.

Files: `text.dfy`, `news_sentiment.dfy`, `dashboard.dfy`.

## Behaviour the model pins down

- The keyword score counts presence, not repetitions. It equals the number
  of distinct positive keywords present minus the number of distinct
  negative keywords present (`ScoreCountsPresentWords`). It always lies in
  [-8, 8].
- Matching is on substrings. "rise" counts inside "Surprise"
  (`RiseInsideSurprise`), and adding text around a headline never loses a
  hit (`HitsGrowWithText`). Matching also ignores case (`ScoreIgnoresCase`).
- On the dashboard path the cap of ten comes before the skip rule.
  Skipped records still use up slots: if the first ten records have no
  headline, the run halts even when later records have one
  (`SkippedRecordsUseSlots`), and records after the tenth never matter
  (`LaterRecordsIgnored`). So a run yields at most ten rows, and fewer
  when records are skipped. Skipped records are not replaced by later
  ones.
- An empty-string `title` is kept as the headline. The nested `content`
  title is then not consulted, and the record is skipped
  (`EmptyTitleSkipsRecord`).
- The feed path computes no average and no overall signal. Only the
  dashboard path aggregates.
- Headlines that contain several keywords get one point for each. For
  example, "Markets rally on strong earnings" holds three positive keywords
  ("rally", "strong", "earnings"), so the scoring rule gives it 3.

## Model

| member | source | states |
|---|---|---|
| `Text.Lower` | news_sentiment.py:33 | the lower-cased headline has the same length, and each character is the ASCII lower-case form of the original one |
| `Text.Occurs` | news_sentiment.py:36-40 | the substring test is true exactly when some slice of the text equals the keyword (Python's `in` on strings) |
| `Text.LowerIdempotent` | news_sentiment.py:33 | lower-casing an already lower-cased headline changes nothing |
| `NewsSentiment.Hits` | news_sentiment.py:35-41 | each loop adds at most one point per listed word, so a list contributes at most its length |
| `NewsSentiment.KeywordScore` | news_sentiment.py:23-41 | the score of any headline lies between -8 and 8 |
| `NewsSentiment.SentimentLabel` | news_sentiment.py:43-48 | the label is Positive iff score > 0, Negative iff score < 0, Neutral iff score = 0 |
| `NewsSentiment.AnalyzeSentiment` | news_sentiment.py:22-48 | the two accumulating loops return the keyword score of the lower-cased headline and the label of that score's sign |
| `NewsSentiment.InvestmentSignal` | news_sentiment.py:52-58 | BUY iff the label is "Positive", SELL iff "Negative", HOLD for every other string |
| `NewsSentiment.RowFor` | news_sentiment.py:89-96 | the row keeps the headline, carries its keyword score and that score's label, and its signal is BUY iff score > 0, SELL iff score < 0, HOLD iff score = 0 |
| `NewsSentiment.LoadRealNews` | news_sentiment.py:14-18 | the headline list has min(5, number of entries) items, item i being entry i's title |
| `NewsSentiment.BuildResults` | news_sentiment.py:88-96 | one row per headline, in input order, each row being [headline, label, score, signal] for that headline |
| `NewsSentiment.RunFeed` | news_sentiment.py:83-96 | a run yields min(5, number of entries) rows, row i scoring entry i's title |
| `NewsSentiment.HitsCountsPresentWords` | news_sentiment.py:35-41 | over a list without repeats, the points added equal the number of distinct listed words present in the text |
| `NewsSentiment.ScoreCountsPresentWords` | news_sentiment.py:32-41 | score = (positive keywords present) − (negative keywords present), each counted once however often it repeats |
| `NewsSentiment.HitsDependOnPresenceOnly` | news_sentiment.py:35-41 | two texts that contain the same listed words get the same points from that list |
| `NewsSentiment.SameKeywordsSameScore` | news_sentiment.py:32-41 | headlines whose lower-cased texts contain the same keywords score the same, regardless of repetition or position |
| `NewsSentiment.ScoreIgnoresCase` | news_sentiment.py:33 | a headline and its lower-cased form score the same |
| `NewsSentiment.HitsGrowWithText` | news_sentiment.py:36-40 | a keyword found in a text is still found when text is added before or after it, so matches inside longer words count |
| `NewsSentiment.SignalFollowsScoreSign` | news_sentiment.py:43-58 | the row's signal is BUY iff score > 0, SELL iff score < 0, HOLD iff score = 0 |
| `NewsSentiment.RiseInsideSurprise` | news_sentiment.py:33-41 | "Surprise" scores 1: "rise" matches inside the word, after lower-casing |
| `Dashboard.Window` | app.py:60 | exactly the first min(10, n) records are visited, in order |
| `Dashboard.Usable` | app.py:74-75 | a headline is kept iff it is neither None nor the empty string (Python falsiness of a string) |
| `Dashboard.ExtractHeadline` | app.py:62-72 | non-dict records give no headline; a non-None title is used as is; otherwise a headline can only come from a dict under `content` |
| `Dashboard.KeptHeadlines` | app.py:74-75 | kept headlines are never empty, and there are at most as many as records examined |
| `Dashboard.Classify` | app.py:80-85 | BUY iff score > 0.1, SELL iff score < -0.1, HOLD iff -0.1 ≤ score ≤ 0.1 |
| `Dashboard.RowOf` | app.py:77-91 | a row keeps its headline and its polarity score, and its signal is BUY iff score > 0.1, SELL iff score < -0.1, HOLD otherwise |
| `Dashboard.Rows` | app.py:60-91 | there is one row per kept headline of the first ten records |
| `Dashboard.ScoreHeadlines` | app.py:57-91 | the loop's results are the rows of the kept headlines in order, and scores[i] is the score of results[i] |
| `Dashboard.Mean` | app.py:100 | the average times the number of scores equals their sum |
| `Dashboard.Analysis` | app.py:53-111 | no news iff the list is empty; no valid headlines iff news exists but none of the first ten records yields a headline; otherwise 1 to 10 rows, their mean as average, and that mean's signal as overall |
| `Dashboard.MeanWithin` | app.py:100 | scores that all lie in [lo, hi] have their mean in [lo, hi] |
| `Dashboard.MeanBetweenExtremes` | app.py:100 | the average lies between the smallest and the largest per-headline score |
| `Dashboard.AnalyzeNews` | app.py:53-111 | the block halts on no news, halts when nothing was kept, and otherwise reports the rows, their mean and the mean's signal |
| `Dashboard.EmptyTitleSkipsRecord` | app.py:66-75 | an empty title blocks the nested fallback and the record is skipped |
| `Dashboard.NestedTitleFallback` | app.py:69-72 | a record without a title takes the title of the dict under `content` |
| `Dashboard.KeptAppend` | app.py:60-75 | filtering splits over concatenation, so kept headlines keep their records' order |
| `Dashboard.NothingKeptIff` | app.py:74-75 | nothing is kept exactly when no examined record yields a non-empty headline |
| `Dashboard.AllUsableAllKept` | app.py:62-78 | when every record yields a non-empty headline, all are kept, one per record, in order |
| `Dashboard.LaterRecordsIgnored` | app.py:60 | appending records after the tenth leaves the outcome unchanged |
| `Dashboard.SkippedRecordsUseSlots` | app.py:60-95 | if the first ten records all lack a headline, the run halts with no valid headlines whatever follows |
| `Dashboard.AnalysisOutcome` | app.py:53-111 | no news iff the list is empty; no valid headlines iff none of the first ten yields one; a report has 1 to 10 rows in order, each classified by its own score, an average between min and max, and overall = classify(average) |
| `Dashboard.AverageWithinPolarityRange` | app.py:77-100 | with polarities in [-1, 1], the average lies in [-1, 1] |
| `Dashboard.ThresholdsAreStrict` | app.py:80-85 | exactly 0.1 and -0.1 give HOLD; values just beyond them give BUY and SELL |
| `Dashboard.MixedScoresHold` | app.py:100-111 | the mean of 0.2, -0.3 and 0.05 is -0.05/3, which gives HOLD |

## Left out

- Fetching: `feedparser.parse`, `yf.Ticker`, `history` and `news` are network calls. A feed entry is reduced to its title. A news record is the `NewsItem` datatype.
- A feed entry without a `title` attribute (Python raises an error) is not modelled: every `FeedEntry` has a title.
- Non-string titles (numbers and the like) are not modelled: a title is a string or absent/None.
- A news value of None is treated like an empty list: both take the "no news" branch.
- The polarity estimator (TextBlob) is a foreign library. It is a function parameter, so it is deterministic by construction.
- Floating point: scores are exact reals. Float rounding in `sum`, `round(..., 3)` for display, and the binary value of the literal 0.1 are not modelled.
- `str.lower` is modelled for ASCII only. Other Unicode case mappings are not modelled.
- The price chart and its empty-history halt (app.py:36-48), the bar chart, the table, the CSV download, `save_to_csv` and all printing are output only.
- Page setup, sidebar, spinner, `st.stop` beyond the two halts modelled as `Outcome` values, and the top-level exception handler are UI control flow.
- `Signal.Text` gives the on-screen text of each signal. No property is stated about it.
