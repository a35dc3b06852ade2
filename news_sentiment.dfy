/** The command-line feed path: keyword scoring of headlines, the
    sentiment label, the investment signal, and the list shaping of the
    feed loader and of the main loop (news_sentiment.py). */
module NewsSentiment {
  import opened Text

  /** Words that each add one to a headline's score when they occur in it. */
  const PositiveWords: seq<string> :=
    ["rally", "strong", "optimistic", "growth", "cooling", "earnings", "gain", "rise"]

  /** Words that each subtract one from a headline's score when they occur in it. */
  const NegativeWords: seq<string> :=
    ["fall", "decline", "recession", "fears", "tensions", "loss", "drop", "crash"]

  /** No word is listed twice. */
  predicate Distinct(words: seq<string>)
  {
    forall i, j :: 0 <= i < j < |words| ==> words[i] != words[j]
  }

  /** One point when `word` occurs in `text`, none otherwise. */
  function Hit(word: string, text: string): nat
  {
    if Occurs(word, text) then 1 else 0
  }

  /** How many of `words` occur somewhere in `text`; a word that occurs
      several times still counts once. */
  function Hits(words: seq<string>, text: string): (n: nat)
    ensures n <= |words|
  {
    if words == [] then 0
    else Hits(words[..|words| - 1], text) + Hit(words[|words| - 1], text)
  }

  /** The keyword score of a headline: the positive words present in its
      lower-cased text, minus the negative words present in it. */
  function KeywordScore(headline: string): (score: int)
    ensures -8 <= score <= 8
  {
    var text := Lower(headline);
    Hits(PositiveWords, text) - Hits(NegativeWords, text)
  }

  /** The sentiment label taken from the sign of a score. */
  function SentimentLabel(score: int): (sentiment: string)
    ensures sentiment == "Positive" <==> score > 0
    ensures sentiment == "Negative" <==> score < 0
    ensures sentiment == "Neutral" <==> score == 0
  {
    if score > 0 then "Positive"
    else if score < 0 then "Negative"
    else "Neutral"
  }

  /** Scores a headline with two loops over the word lists, as the feed
      path does, and labels the score. */
  method AnalyzeSentiment(headline: string) returns (score: int, sentiment: string)
    ensures score == KeywordScore(headline)
    ensures sentiment == SentimentLabel(score)
  {
    score := 0;
    var text := Lower(headline);
    for i := 0 to |PositiveWords|
      invariant score == Hits(PositiveWords[..i], text)
    {
      assert PositiveWords[..i + 1][..i] == PositiveWords[..i];
      if Occurs(PositiveWords[i], text) {
        score := score + 1;
      }
    }
    assert PositiveWords[..|PositiveWords|] == PositiveWords;
    for j := 0 to |NegativeWords|
      invariant score == Hits(PositiveWords, text) - Hits(NegativeWords[..j], text)
    {
      assert NegativeWords[..j + 1][..j] == NegativeWords[..j];
      if Occurs(NegativeWords[j], text) {
        score := score - 1;
      }
    }
    assert NegativeWords[..|NegativeWords|] == NegativeWords;
    if score > 0 {
      sentiment := "Positive";
    } else if score < 0 {
      sentiment := "Negative";
    } else {
      sentiment := "Neutral";
    }
  }

  /** Maps a sentiment label to a signal; any label other than the two
      named ones gives HOLD. */
  function InvestmentSignal(sentiment: string): (signal: string)
    ensures signal == "BUY" <==> sentiment == "Positive"
    ensures signal == "SELL" <==> sentiment == "Negative"
    ensures signal == "HOLD" <==> sentiment != "Positive" && sentiment != "Negative"
  {
    if sentiment == "Positive" then "BUY"
    else if sentiment == "Negative" then "SELL"
    else "HOLD"
  }

  /** One exported row: headline, sentiment, score and signal. */
  datatype Row = Row(headline: string, sentiment: string, score: int, signal: string)

  /** The row the main loop builds for one headline. */
  function RowFor(headline: string): (row: Row)
    ensures row.headline == headline && row.score == KeywordScore(headline)
    ensures row.sentiment == SentimentLabel(row.score)
    ensures row.signal == "BUY" <==> row.score > 0
    ensures row.signal == "SELL" <==> row.score < 0
    ensures row.signal == "HOLD" <==> row.score == 0
  {
    var score := KeywordScore(headline);
    var sentiment := SentimentLabel(score);
    Row(headline, sentiment, score, InvestmentSignal(sentiment))
  }

  /** A feed entry, reduced to the title the loader reads from it. */
  datatype FeedEntry = FeedEntry(title: string)

  /** Keeps the titles of at most the first five feed entries, in order. */
  method LoadRealNews(entries: seq<FeedEntry>) returns (headlines: seq<string>)
    ensures |headlines| == if |entries| < 5 then |entries| else 5
    ensures forall i :: 0 <= i < |headlines| ==> headlines[i] == entries[i].title
  {
    headlines := [];
    var first := if |entries| < 5 then entries else entries[..5];
    for i := 0 to |first|
      invariant |headlines| == i
      invariant forall k :: 0 <= k < i ==> headlines[k] == first[k].title
    {
      headlines := headlines + [first[i].title];
    }
  }

  /** The main loop: one row per headline, in input order. */
  method BuildResults(news: seq<string>) returns (results: seq<Row>)
    ensures |results| == |news|
    ensures forall i :: 0 <= i < |news| ==> results[i] == RowFor(news[i])
  {
    results := [];
    for i := 0 to |news|
      invariant |results| == i
      invariant forall k :: 0 <= k < i ==> results[k] == RowFor(news[k])
    {
      var headline := news[i];
      var score, sentiment := AnalyzeSentiment(headline);
      var signal := InvestmentSignal(sentiment);
      results := results + [Row(headline, sentiment, score, signal)];
    }
  }

  /** A whole run of the feed path, without its output: load the titles,
      then score each one. */
  method RunFeed(entries: seq<FeedEntry>) returns (results: seq<Row>)
    ensures |results| == if |entries| < 5 then |entries| else 5
    ensures forall i :: 0 <= i < |results| ==> results[i] == RowFor(entries[i].title)
  {
    var news := LoadRealNews(entries);
    results := BuildResults(news);
  }

  // ---------------------------------------------------------------------
  // Properties of the keyword score

  /** The words of `words` that occur in `text`, by the reference meaning
      of substring occurrence. */
  ghost function Present(words: seq<string>, text: string): set<string>
  {
    set w | w in words && Contains(text, w)
  }

  /** Over a list without repeats, the hit count is the number of distinct
      listed words present in the text. */
  lemma {:induction false} HitsCountsPresentWords(words: seq<string>, text: string)
    requires Distinct(words)
    ensures Hits(words, text) == |Present(words, text)|
    decreases |words|
  {
    if words != [] {
      var init, last := words[..|words| - 1], words[|words| - 1];
      assert Distinct(init);
      HitsCountsPresentWords(init, text);
      assert last !in init;
      assert words == init + [last];
      if Contains(text, last) {
        assert Present(words, text) == Present(init, text) + {last};
      } else {
        assert Present(words, text) == Present(init, text);
      }
    }
  }

  /** The score is the number of positive words present minus the number
      of negative words present, counting presence and not repetitions. */
  lemma ScoreCountsPresentWords(headline: string)
    ensures KeywordScore(headline)
      == |Present(PositiveWords, Lower(headline))| - |Present(NegativeWords, Lower(headline))|
  {
    assert Distinct(PositiveWords);
    assert Distinct(NegativeWords);
    HitsCountsPresentWords(PositiveWords, Lower(headline));
    HitsCountsPresentWords(NegativeWords, Lower(headline));
  }

  /** Two texts in which the same listed words occur give the same hit count. */
  lemma {:induction false} HitsDependOnPresenceOnly(words: seq<string>, t1: string, t2: string)
    requires forall w :: w in words ==> (Contains(t1, w) <==> Contains(t2, w))
    ensures Hits(words, t1) == Hits(words, t2)
    decreases |words|
  {
    if words != [] {
      var last := words[|words| - 1];
      HitsDependOnPresenceOnly(words[..|words| - 1], t1, t2);
    }
  }

  /** Headlines whose lower-cased texts contain the same keywords get the
      same score, however often or wherever those keywords occur. */
  lemma SameKeywordsSameScore(h1: string, h2: string)
    requires forall w :: w in PositiveWords + NegativeWords ==>
      (Contains(Lower(h1), w) <==> Contains(Lower(h2), w))
    ensures KeywordScore(h1) == KeywordScore(h2)
  {
    HitsDependOnPresenceOnly(PositiveWords, Lower(h1), Lower(h2));
    HitsDependOnPresenceOnly(NegativeWords, Lower(h1), Lower(h2));
  }

  /** Matching ignores case: a headline scores as its lower-cased form does. */
  lemma ScoreIgnoresCase(headline: string)
    ensures KeywordScore(Lower(headline)) == KeywordScore(headline)
  {
    LowerIdempotent(headline);
  }

  /** A keyword inside a longer headline still counts for that headline:
      adding text around a headline never removes a keyword hit. */
  lemma {:induction false} HitsGrowWithText(words: seq<string>, pre: string, text: string, post: string)
    ensures Hits(words, text) <= Hits(words, pre + text + post)
    decreases |words|
  {
    if words != [] {
      var last := words[|words| - 1];
      HitsGrowWithText(words[..|words| - 1], pre, text, post);
      if Contains(text, last) {
        ContainsInLonger(pre, text, post, last);
      }
    }
  }

  /** The signal follows the sign of the score: BUY exactly when it is
      positive, SELL exactly when it is negative, HOLD exactly at zero. */
  lemma SignalFollowsScoreSign(headline: string)
    ensures RowFor(headline).signal == "BUY" <==> KeywordScore(headline) > 0
    ensures RowFor(headline).signal == "SELL" <==> KeywordScore(headline) < 0
    ensures RowFor(headline).signal == "HOLD" <==> KeywordScore(headline) == 0
  {
  }

  /** The hit count of an eight-word list, word by word. */
  lemma HitsOfEight(words: seq<string>, text: string)
    requires |words| == 8
    ensures Hits(words, text) == Hit(words[0], text) + Hit(words[1], text) + Hit(words[2], text)
      + Hit(words[3], text) + Hit(words[4], text) + Hit(words[5], text) + Hit(words[6], text)
      + Hit(words[7], text)
  {
    assert words[..8] == words;
    assert words[..0] == [];
    forall k | 1 <= k <= 8
      ensures Hits(words[..k], text) == Hits(words[..k - 1], text) + Hit(words[k - 1], text)
    {
      assert words[..k][..k - 1] == words[..k - 1];
    }
  }

  /** Short texts that hold no negative keyword. */
  lemma NoNegativeIn(text: string)
    requires 'c' !in text && 'd' !in text && 'f' !in text && 'o' !in text && 't' !in text
    ensures Hits(NegativeWords, text) == 0
  {
    HitsOfEight(NegativeWords, text);
    AbsentCharRulesOut("fall", text, 'f');
    AbsentCharRulesOut("decline", text, 'd');
    AbsentCharRulesOut("recession", text, 'c');
    AbsentCharRulesOut("fears", text, 'f');
    AbsentCharRulesOut("tensions", text, 't');
    AbsentCharRulesOut("loss", text, 'o');
    AbsentCharRulesOut("drop", text, 'd');
    AbsentCharRulesOut("crash", text, 'c');
  }

  /** Of the positive keywords only "rise" occurs in "surprise". */
  lemma PositiveHitsOfSurprise(text: string)
    requires OccursAt("rise", text, 4)
    requires 'a' !in text && 'c' !in text && 'g' !in text && 'o' !in text && 't' !in text
    ensures Hits(PositiveWords, text) == 1
  {
    HitsOfEight(PositiveWords, text);
    AbsentCharRulesOut("rally", text, 'a');
    AbsentCharRulesOut("strong", text, 't');
    AbsentCharRulesOut("optimistic", text, 'o');
    AbsentCharRulesOut("growth", text, 'g');
    AbsentCharRulesOut("cooling", text, 'c');
    AbsentCharRulesOut("earnings", text, 'a');
    AbsentCharRulesOut("gain", text, 'g');
  }

  // The example lemmas below take the headline as a parameter fixed by
  // `requires`, not as a literal in the goal, so that the verifier does not
  // unfold the substring search on literal strings.

  /** The lower-cased text of the example headline "Surprise". */
  lemma LowerOfSurprise(headline: string)
    requires headline == "Surprise"
    ensures Lower(headline) == "surprise"
  {
  }

  /** What the search needs to know about "surprise". */
  lemma LettersOfSurprise(text: string)
    requires text == "surprise"
    ensures OccursAt("rise", text, 4)
    ensures 'a' !in text && 'c' !in text && 'd' !in text && 'f' !in text
    ensures 'g' !in text && 'o' !in text && 't' !in text
  {
  }

  /** "rise" counts inside "Surprise": a keyword matches inside a longer
      word and regardless of case. */
  lemma RiseInsideSurprise(headline: string)
    requires headline == "Surprise"
    ensures KeywordScore(headline) == 1
  {
    var text := Lower(headline);
    LowerOfSurprise(headline);
    LettersOfSurprise(text);
    PositiveHitsOfSurprise(text);
    NoNegativeIn(text);
  }
}
