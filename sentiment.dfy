/**
 * The pure part of `analyze_sentiment` (bot.py:81-104): pick the classifier's
 * top label, map it into the trader vocabulary, choose advice, and fall back
 * to "neutral" when the classifier call does not give a usable answer.
 * The HTTP call itself is an input (`Response`).
 */
module Sentiment {
  import opened Wrappers
  import opened PyText

  /** One `{'label': ..., 'score': ...}` entry of the classifier's answer; scores are only compared. */
  datatype LabelScore = LabelScore(emotion: string, score: real)

  /** What `requests.post` gave the bot. */
  datatype Response =
    /** A response with its status code; the payload is `None` when `response.json()[0]`
        is not a list of label/score entries (reading it raises). */
    | Answered(status: int, payload: Option<seq<LabelScore>>)
    /** `requests.post` itself raised. */
    | RequestRaised

  datatype Analysis = Analysis(sentiment: string, advice: string)

  /** SENTIMENT_MAP (bot.py:23-31). */
  const SentimentMap: map<string, string> := map[
    "joy" := "confident",
    "fear" := "uncertain",
    "anger" := "frustrated",
    "sadness" := "disappointed",
    "surprise" := "surprised",
    "neutral" := "neutral",
    "disgust" := "disgusted"
  ]

  /** SENTIMENT_ADVICE (bot.py:34-39). */
  const SentimentAdvice: map<string, string> := map[
    "confident" := "🚀 Confidence is key! Remember to always protect profits with a trailing stop.",
    "frustrated" := "🔥 Frustration is normal. Take a break and revisit your strategy with fresh eyes.",
    "disappointed" := "😞 Don't let this shake your confidence. Every trader has off days.",
    "uncertain" := "🤔 Uncertainty means you need clearer rules. Review your trading plan."
  ]

  const StopLossAdvice := "🛑 You mentioned stop-loss - did you stick to your plan? Adjust if needed!"
  const LeverageAdvice := "⚠️ Overleveraged? Reduce position size to stay calm."
  /** bot.py:102: a response whose status is not 200. */
  const StatusFallback := "My sentiment analysis is having a moment 🙃 Let's log it anyway!"
  /** bot.py:104: anything raised while calling or reading the classifier. */
  const GlitchFallback := "Hmm, my brain glitched! Let's focus on the numbers for now."

  /** The trader vocabulary: every value of SENTIMENT_MAP. */
  const Vocabulary: set<string> :=
    {"confident", "uncertain", "frustrated", "disappointed", "surprised", "neutral", "disgusted"}

  /**
   * `max(result, key=lambda x: x['score'])` (bot.py:89): the position of the
   * first entry with the highest score; a later entry replaces the current
   * best only when its score is strictly greater.
   */
  function MaxIndex(s: seq<LabelScore>): (i: nat)
    requires |s| > 0
    ensures i < |s|
    ensures forall j :: 0 <= j < |s| ==> s[j].score <= s[i].score
    ensures forall j :: 0 <= j < i ==> s[j].score < s[i].score
  {
    if |s| == 1 then 0
    else
      var best := MaxIndex(s[..|s| - 1]);
      if s[|s| - 1].score > s[best].score then |s| - 1 else best
  }

  /** `SENTIMENT_MAP.get(emotion, "neutral")` (bot.py:90). */
  function MapLabel(emotion: string): (sentiment: string)
    ensures sentiment in Vocabulary
    ensures emotion in SentimentMap ==> sentiment == SentimentMap[emotion]
    ensures emotion !in SentimentMap ==> sentiment == "neutral"
  {
    if emotion in SentimentMap then SentimentMap[emotion] else "neutral"
  }

  /** bot.py:93-98: keyword advice first, then the per-sentiment table, else none. */
  function Advice(text: string, sentiment: string): (advice: string)
    ensures Contains(Lower(text), "stop-loss") ==> advice == StopLossAdvice
    ensures !Contains(Lower(text), "stop-loss") && Contains(Lower(text), "overleveraged") ==>
      advice == LeverageAdvice
    ensures !Contains(Lower(text), "stop-loss") && !Contains(Lower(text), "overleveraged") &&
            sentiment in SentimentAdvice ==>
              advice == SentimentAdvice[sentiment]
    ensures advice == "" <==>
      !Contains(Lower(text), "stop-loss") && !Contains(Lower(text), "overleveraged") &&
      sentiment !in SentimentAdvice
  {
    var lowered := Lower(text);
    if Contains(lowered, "stop-loss") then StopLossAdvice
    else if Contains(lowered, "overleveraged") then LeverageAdvice
    else if sentiment in SentimentAdvice then SentimentAdvice[sentiment]
    else ""
  }

  /** `analyze_sentiment(text)` given what the classifier call gave (bot.py:85-104). */
  function Analyze(text: string, response: Response): (r: Analysis)
    ensures r.sentiment in Vocabulary
    ensures response.RequestRaised? ==> r == Analysis("neutral", GlitchFallback)
    ensures response.Answered? && response.status != 200 ==> r == Analysis("neutral", StatusFallback)
    ensures response.Answered? && response.status == 200 &&
            (response.payload.None? || response.payload.value == []) ==>
              r == Analysis("neutral", GlitchFallback)
    ensures response.Answered? && response.status == 200 &&
            response.payload.Some? && response.payload.value != [] ==>
              var entries := response.payload.value;
              exists i :: 0 <= i < |entries| &&
                (forall j :: 0 <= j < |entries| ==> entries[j].score <= entries[i].score) &&
                (forall j :: 0 <= j < i ==> entries[j].score < entries[i].score) &&
                r == Analysis(MapLabel(entries[i].emotion), Advice(text, MapLabel(entries[i].emotion)))
  {
    match response
    case RequestRaised => Analysis("neutral", GlitchFallback)
    case Answered(status, payload) =>
      if status != 200 then Analysis("neutral", StatusFallback)
      else if payload.None? || payload.value == [] then
        // reading the payload raises, and so does `max` of an empty list
        Analysis("neutral", GlitchFallback)
      else
        var sentiment := MapLabel(payload.value[MaxIndex(payload.value)].emotion);
        Analysis(sentiment, Advice(text, sentiment))
  }

  /** Only one ranking is possible: the first entry with the top score. */
  lemma FirstMaxIsUnique(s: seq<LabelScore>, i: nat)
    requires i < |s|
    requires forall j :: 0 <= j < |s| ==> s[j].score <= s[i].score
    requires forall j :: 0 <= j < i ==> s[j].score < s[i].score
    ensures MaxIndex(s) == i
  {
  }

  /** The first entry with the top score decides the sentiment. */
  lemma TopLabelDecides(text: string, entries: seq<LabelScore>, i: nat)
    requires i < |entries|
    requires forall j :: 0 <= j < |entries| ==> entries[j].score <= entries[i].score
    requires forall j :: 0 <= j < i ==> entries[j].score < entries[i].score
    ensures Analyze(text, Answered(200, Some(entries))).sentiment == MapLabel(entries[i].emotion)
  {
    FirstMaxIsUnique(entries, i);
  }

  /** A mention of "stop-loss", in any letter case, decides the advice whatever the sentiment. */
  lemma StopLossWins(text: string, sentiment: string)
    requires Contains(Lower(text), "stop-loss")
    ensures Advice(text, sentiment) == StopLossAdvice
  {
  }

  /** The sentiment matters for the advice only when the text names neither keyword. */
  lemma AdviceDependsOnSentimentOnlyWithoutKeywords(text: string, s1: string, s2: string)
    requires Advice(text, s1) != Advice(text, s2)
    ensures !Contains(Lower(text), "stop-loss") && !Contains(Lower(text), "overleveraged")
  {
  }

  /** "surprised", "neutral" and "disgusted" have no table advice. */
  lemma NoAdviceWithoutTableEntry(text: string, sentiment: string)
    requires sentiment in {"surprised", "neutral", "disgusted"}
    requires !Contains(Lower(text), "stop-loss") && !Contains(Lower(text), "overleveraged")
    ensures Advice(text, sentiment) == ""
  {
  }

  /** Every sentiment the table has advice for is one the map can produce, and those are four. */
  lemma AdviceTableWithinVocabulary()
    ensures SentimentAdvice.Keys <= Vocabulary
    ensures SentimentAdvice.Keys == {"confident", "frustrated", "disappointed", "uncertain"}
  {
  }

  lemma FearIsUncertain()
    ensures MapLabel("fear") == "uncertain"
  {
  }

  lemma LoveIsNeutral()
    ensures MapLabel("love") == "neutral"
  {
  }

  lemma JoyIsConfident()
    ensures MapLabel("joy") == "confident"
  {
  }

  lemma TieRanking(text: string)
    ensures Analyze(text, Answered(200, Some([LabelScore("fear", 0.4), LabelScore("joy", 0.4)]))).sentiment
            == MapLabel("fear")
  {
    TopLabelDecides(text, [LabelScore("fear", 0.4), LabelScore("joy", 0.4)], 0);
  }

  /** On a tie the first of the tied labels wins: "fear" listed before an equally scored "joy". */
  lemma TieGoesToFirstLabel(text: string)
    ensures Analyze(text, Answered(200, Some([LabelScore("fear", 0.4), LabelScore("joy", 0.4)]))).sentiment
            == "uncertain"
  {
    TieRanking(text);
    FearIsUncertain();
  }

  lemma LoveRanking(text: string)
    ensures Analyze(text, Answered(200, Some([LabelScore("love", 0.9), LabelScore("joy", 0.1)]))).sentiment
            == MapLabel("love")
  {
    TopLabelDecides(text, [LabelScore("love", 0.9), LabelScore("joy", 0.1)], 0);
  }

  /** A label the map does not know ("love") becomes "neutral". */
  lemma UnknownLabelIsNeutral(text: string)
    ensures Analyze(text, Answered(200, Some([LabelScore("love", 0.9), LabelScore("joy", 0.1)]))).sentiment
            == "neutral"
  {
    LoveRanking(text);
    LoveIsNeutral();
  }
}
