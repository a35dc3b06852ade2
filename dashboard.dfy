/** The dashboard path's analysis block (app.py, lines 57-111): take the
    first ten news records, extract a headline from each, skip records
    without one, score and classify the rest, then average the scores and
    classify the average. The polarity estimator is a parameter. */
module Dashboard {

  datatype Option<T> = None | Some(value: T)

  /** What a record holds under its `content` key: a dictionary, whose
      `title` may be missing, or some other value. */
  datatype Content = ContentDict(title: Option<string>) | NotADict

  /** One news record. A dictionary record has an optional `title` (missing
      and None read alike) and an optional `content` entry (None when the
      key is absent). Anything else the data source returns is NotARecord. */
  datatype NewsItem =
    | Record(title: Option<string>, content: Option<Content>)
    | NotARecord

  /** The three signals, with the text the dashboard shows for each. */
  datatype Signal = Buy | Sell | Hold
  {
    function Text(): string
    {
      match this
      case Buy => "BUY 📈"
      case Sell => "SELL 📉"
      case Hold => "HOLD ⚖️"
    }
  }

  /** One row of the results table. */
  datatype ResultRow = ResultRow(headline: string, score: real, signal: Signal)

  /** How many records the analysis looks at, skipped ones included. */
  const Cap: nat := 10

  /** The records the loop visits: the first `Cap` of them. */
  function Window(news: seq<NewsItem>): (w: seq<NewsItem>)
    ensures |w| == if |news| <= Cap then |news| else Cap
    ensures |news| <= Cap ==> w == news
    ensures forall i :: 0 <= i < |w| ==> w[i] == news[i]
  {
    if |news| <= Cap then news else news[..Cap]
  }

  /** The headline a record yields: its own title when that is not None,
      otherwise the title of a dictionary under `content`. */
  function ExtractHeadline(item: NewsItem): (headline: Option<string>)
    ensures item.NotARecord? ==> headline == None
    ensures item.Record? && item.title.Some? ==> headline == item.title
    ensures headline.Some? && item.Record? && item.title.None? ==>
      item.content == Some(ContentDict(headline))
  {
    match item
    case NotARecord => None
    case Record(title, content) =>
      if title.Some? then title
      else if content.Some? && content.value.ContentDict? then content.value.title
      else None
  }

  /** A headline is kept when it exists and is not the empty string. */
  predicate Usable(headline: Option<string>): (keep: bool)
    ensures keep <==> headline != None && headline != Some("")
  {
    headline.Some? && headline.value != ""
  }

  /** The headlines kept from a list of records, in order. */
  function KeptHeadlines(items: seq<NewsItem>): (kept: seq<string>)
    ensures |kept| <= |items|
    ensures forall i :: 0 <= i < |kept| ==> kept[i] != ""
  {
    if items == [] then []
    else
      var h := ExtractHeadline(items[|items| - 1]);
      KeptHeadlines(items[..|items| - 1]) + (if Usable(h) then [h.value] else [])
  }

  /** The signal for a score, with strict thresholds at 0.1 and -0.1. */
  function Classify(score: real): (signal: Signal)
    ensures signal == Buy <==> score > 0.1
    ensures signal == Sell <==> score < -0.1
    ensures signal == Hold <==> -0.1 <= score <= 0.1
  {
    if score > 0.1 then Buy
    else if score < -0.1 then Sell
    else Hold
  }

  /** The row the loop appends for a kept headline. */
  function RowOf(headline: string, polarity: string -> real): (row: ResultRow)
    ensures row.headline == headline && row.score == polarity(headline)
    ensures row.signal == Buy <==> row.score > 0.1
    ensures row.signal == Sell <==> row.score < -0.1
    ensures row.signal == Hold <==> -0.1 <= row.score <= 0.1
  {
    ResultRow(headline, polarity(headline), Classify(polarity(headline)))
  }

  /** The rows the analysis produces for a news list. */
  function Rows(news: seq<NewsItem>, polarity: string -> real): (rows: seq<ResultRow>)
    ensures |rows| == |KeptHeadlines(Window(news))|
  {
    var kept := KeptHeadlines(Window(news));
    seq(|kept|, i requires 0 <= i < |kept| => RowOf(kept[i], polarity))
  }

  /** The per-headline loop. Both lists grow together: entry i of `scores`
      is the score of entry i of `results`. */
  method ScoreHeadlines(news: seq<NewsItem>, polarity: string -> real)
    returns (results: seq<ResultRow>, scores: seq<real>)
    ensures results == Rows(news, polarity)
    ensures |scores| == |results|
    ensures forall i :: 0 <= i < |scores| ==> scores[i] == results[i].score
  {
    results := [];
    scores := [];
    var window := Window(news);
    for i := 0 to |window|
      invariant results == Rows(window[..i], polarity)
      invariant |scores| == |results|
      invariant forall k :: 0 <= k < |scores| ==> scores[k] == results[k].score
    {
      assert window[..i + 1][..i] == window[..i];
      var item := window[i];
      var headline: Option<string> := None;
      if item.Record? {
        headline := item.title;
        if headline.None? && item.content.Some? {
          var content := item.content.value;
          if content.ContentDict? {
            headline := content.title;
          }
        }
      }
      if !(headline.Some? && headline.value != "") {
        continue;
      }
      var score := polarity(headline.value);
      scores := scores + [score];
      results := results + [ResultRow(headline.value, score, Classify(score))];
    }
    assert window[..|window|] == window;
  }

  // ---------------------------------------------------------------------
  // Averaging and the whole analysis

  /** The sum of the scores, added from the left. */
  function Sum(scores: seq<real>): real
  {
    if scores == [] then 0.0 else Sum(scores[..|scores| - 1]) + scores[|scores| - 1]
  }

  /** The arithmetic mean; only defined for a non-empty list. */
  function Mean(scores: seq<real>): (m: real)
    requires |scores| > 0
    ensures m * (|scores| as real) == Sum(scores)
  {
    Sum(scores) / (|scores| as real)
  }

  /** The smallest score. */
  function MinScore(scores: seq<real>): (m: real)
    requires |scores| > 0
    ensures m in scores
    ensures forall i :: 0 <= i < |scores| ==> m <= scores[i]
  {
    if |scores| == 1 then scores[0]
    else
      var rest := MinScore(scores[..|scores| - 1]);
      if scores[|scores| - 1] < rest then scores[|scores| - 1] else rest
  }

  /** The largest score. */
  function MaxScore(scores: seq<real>): (m: real)
    requires |scores| > 0
    ensures m in scores
    ensures forall i :: 0 <= i < |scores| ==> scores[i] <= m
  {
    if |scores| == 1 then scores[0]
    else
      var rest := MaxScore(scores[..|scores| - 1]);
      if scores[|scores| - 1] > rest then scores[|scores| - 1] else rest
  }

  /** Scores that all lie in [lo, hi] sum to between n * lo and n * hi. */
  lemma {:induction false} SumWithin(scores: seq<real>, lo: real, hi: real)
    requires forall i :: 0 <= i < |scores| ==> lo <= scores[i] <= hi
    ensures (|scores| as real) * lo <= Sum(scores) <= (|scores| as real) * hi
    decreases |scores|
  {
    if scores != [] {
      SumWithin(scores[..|scores| - 1], lo, hi);
    }
  }

  /** Scores that all lie in [lo, hi] have their mean in [lo, hi]. */
  lemma MeanWithin(scores: seq<real>, lo: real, hi: real)
    requires |scores| > 0
    requires forall i :: 0 <= i < |scores| ==> lo <= scores[i] <= hi
    ensures lo <= Mean(scores) <= hi
  {
    SumWithin(scores, lo, hi);
  }

  /** The mean lies between the smallest and the largest score. */
  lemma MeanBetweenExtremes(scores: seq<real>)
    requires |scores| > 0
    ensures MinScore(scores) <= Mean(scores) <= MaxScore(scores)
  {
    MeanWithin(scores, MinScore(scores), MaxScore(scores));
  }

  /** The summary metrics of a successful analysis. */
  datatype Report = Report(results: seq<ResultRow>, average: real, overall: Signal)

  /** How an analysis ends: halted for lack of news, halted because no
      record yielded a headline, or with a report. */
  datatype Outcome = NoNews | NoValidHeadlines | Analyzed(report: Report)

  /** The score column of the results. */
  function ScoresOf(rows: seq<ResultRow>): (scores: seq<real>)
    ensures |scores| == |rows|
    ensures forall i :: 0 <= i < |rows| ==> scores[i] == rows[i].score
  {
    seq(|rows|, i requires 0 <= i < |rows| => rows[i].score)
  }

  /** What the analysis block yields for a news list. */
  function Analysis(news: seq<NewsItem>, polarity: string -> real): (r: Outcome)
    ensures r == NoNews <==> news == []
    ensures r == NoValidHeadlines <==> news != [] && KeptHeadlines(Window(news)) == []
    ensures r.Analyzed? ==>
      && 0 < |r.report.results| <= Cap
      && r.report.results == Rows(news, polarity)
      && r.report.average == Mean(ScoresOf(r.report.results))
      && r.report.overall == Classify(r.report.average)
  {
    if news == [] then NoNews
    else
      var rows := Rows(news, polarity);
      if rows == [] then NoValidHeadlines
      else
        var average := Mean(ScoresOf(rows));
        Analyzed(Report(rows, average, Classify(average)))
  }

  /** The analysis block: halt on an empty news list, run the loop, halt
      when nothing was kept, and only then divide by the number of scores. */
  method AnalyzeNews(news: seq<NewsItem>, polarity: string -> real) returns (outcome: Outcome)
    ensures outcome == Analysis(news, polarity)
  {
    if news == [] {
      return NoNews;
    }
    var results, scores := ScoreHeadlines(news, polarity);
    if results == [] {
      return NoValidHeadlines;
    }
    assert scores == ScoresOf(results);
    var average := Sum(scores) / (|scores| as real);
    outcome := Analyzed(Report(results, average, Classify(average)));
  }

  // ---------------------------------------------------------------------
  // Properties of extraction, the cap and the analysis

  /** An empty title is kept as the headline, so the nested title is not
      consulted, and the record is then skipped. */
  lemma EmptyTitleSkipsRecord(item: NewsItem)
    requires item.Record? && item.title == Some("")
    ensures ExtractHeadline(item) == Some("")
    ensures !Usable(ExtractHeadline(item))
  {
  }

  /** A record without a title falls back to the title of a dictionary
      under `content`. */
  lemma NestedTitleFallback(title: Option<string>)
    ensures ExtractHeadline(Record(None, Some(ContentDict(title)))) == title
  {
  }

  /** Filtering distributes over concatenation, so kept headlines keep the
      order of their records. */
  lemma {:induction false} KeptAppend(a: seq<NewsItem>, b: seq<NewsItem>)
    ensures KeptHeadlines(a + b) == KeptHeadlines(a) + KeptHeadlines(b)
    decreases |b|
  {
    if b == [] {
      assert a + b == a;
    } else {
      var b' := b[..|b| - 1];
      KeptAppend(a, b');
      assert (a + b)[..|a + b| - 1] == a + b';
    }
  }

  /** Nothing is kept exactly when no record yields a non-empty headline. */
  lemma {:induction false} NothingKeptIff(items: seq<NewsItem>)
    ensures KeptHeadlines(items) == [] <==>
      forall i :: 0 <= i < |items| ==> !Usable(ExtractHeadline(items[i]))
    decreases |items|
  {
    if items != [] {
      var init := items[..|items| - 1];
      NothingKeptIff(init);
      if forall i :: 0 <= i < |items| ==> !Usable(ExtractHeadline(items[i])) {
        assert forall i :: 0 <= i < |init| ==> init[i] == items[i];
      }
      if KeptHeadlines(items) == [] {
        forall i | 0 <= i < |items|
          ensures !Usable(ExtractHeadline(items[i]))
        {
          if i < |init| {
            assert init[i] == items[i];
          }
        }
      }
    }
  }

  /** When every record yields a headline, each is kept, in order. */
  lemma {:induction false} AllUsableAllKept(items: seq<NewsItem>)
    requires forall i :: 0 <= i < |items| ==> Usable(ExtractHeadline(items[i]))
    ensures |KeptHeadlines(items)| == |items|
    ensures forall i :: 0 <= i < |items| ==>
      Some(KeptHeadlines(items)[i]) == ExtractHeadline(items[i])
    decreases |items|
  {
    if items != [] {
      var init := items[..|items| - 1];
      AllUsableAllKept(init);
    }
  }

  /** Records after the tenth never affect the analysis. */
  lemma LaterRecordsIgnored(news: seq<NewsItem>, extra: seq<NewsItem>, polarity: string -> real)
    requires |news| >= Cap
    ensures Analysis(news + extra, polarity) == Analysis(news, polarity)
  {
    assert Window(news + extra) == Window(news);
  }

  /** The cap is applied before filtering: when the first ten records all
      lack a headline, the analysis halts even if later records have one. */
  lemma SkippedRecordsUseSlots(news: seq<NewsItem>, polarity: string -> real)
    requires |news| >= Cap
    requires forall i :: 0 <= i < Cap ==> !Usable(ExtractHeadline(news[i]))
    ensures Analysis(news, polarity) == NoValidHeadlines
  {
    NothingKeptIff(Window(news));
  }

  /** How the analysis ends, and what a report holds: between one and ten
      rows, one per kept headline in order, each classified by its own
      score; an average between the smallest and the largest score; and
      the overall signal classified from the average. */
  lemma AnalysisOutcome(news: seq<NewsItem>, polarity: string -> real)
    ensures Analysis(news, polarity) == NoNews <==> news == []
    ensures Analysis(news, polarity) == NoValidHeadlines <==>
      news != [] && forall i :: 0 <= i < |Window(news)| ==> !Usable(ExtractHeadline(news[i]))
    ensures Analysis(news, polarity).Analyzed? ==>
      var r := Analysis(news, polarity).report;
      && 0 < |r.results| <= |Window(news)|
      && (forall i :: 0 <= i < |r.results| ==>
            r.results[i].headline == KeptHeadlines(Window(news))[i]
            && r.results[i].score == polarity(r.results[i].headline)
            && r.results[i].signal == Classify(r.results[i].score))
      && MinScore(ScoresOf(r.results)) <= r.average <= MaxScore(ScoresOf(r.results))
      && r.overall == Classify(r.average)
  {
    NothingKeptIff(Window(news));
    if news != [] && Rows(news, polarity) != [] {
      MeanBetweenExtremes(ScoresOf(Rows(news, polarity)));
    }
  }

  /** With a polarity estimator whose values lie in [-1, 1], the average
      lies in [-1, 1] too. */
  lemma AverageWithinPolarityRange(news: seq<NewsItem>, polarity: string -> real)
    requires forall h :: -1.0 <= polarity(h) <= 1.0
    ensures Analysis(news, polarity).Analyzed? ==>
      -1.0 <= Analysis(news, polarity).report.average <= 1.0
  {
    if Analysis(news, polarity).Analyzed? {
      MeanWithin(ScoresOf(Rows(news, polarity)), -1.0, 1.0);
    }
  }

  /** The thresholds are strict: 0.1 and -0.1 both give HOLD. */
  lemma ThresholdsAreStrict()
    ensures Classify(0.1) == Hold && Classify(-0.1) == Hold
    ensures Classify(0.1001) == Buy && Classify(-0.1001) == Sell
  {
  }

  /** A mixed set of scores averaging near zero holds. */
  lemma MixedScoresHold()
    ensures Mean([0.2, -0.3, 0.05]) == -0.05 / 3.0
    ensures Classify(Mean([0.2, -0.3, 0.05])) == Hold
  {
    assert [0.2, -0.3, 0.05][..2] == [0.2, -0.3];
    assert [0.2, -0.3][..1] == [0.2];
    assert [0.2][..0] == [];
  }
}
