/**
 * The records the client receives from the analysis service and keeps in its
 * history. Only the fields the modelled logic reads are kept; confidence and
 * relevance scores are floating point and are left out.
 */
module Analysis {
  import opened JsText

  datatype Sentiment = Sentiment(labelName: string)  // `sentiment.label` (`label` is a Dafny keyword)

  datatype Keyword = Keyword(keyword: string)

  /** One result per analysed text; `sentiment` and `keywords` may be missing. */
  datatype AnalysisResult = AnalysisResult(text: string, sentiment: Option<Sentiment>, keywords: Option<seq<Keyword>>)

  /**
   * One stored analysis run. `textCount` and `results` may be missing; the id
   * is whatever the creator chose (entries are built outside this model).
   */
  datatype HistoryEntry = HistoryEntry(id: int, timestamp: string, textCount: Option<nat>, results: Option<seq<AnalysisResult>>)
}
