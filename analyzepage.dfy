/**
 * The analysis page (src/pages/AnalyzePage.jsx): the `results`, `loading`
 * and `error` state around a text analysis, the hand-over of file results,
 * and what the page shows or disables. The outcome of the request is an input.
 */
module AnalyzeView {
  import opened JsText
  import opened Analysis
  import Api

  const AnalyzeFailedMessage: string := "Failed to analyze text"

  /** What `analyzeTexts` came back with: `response.results` (`None` when missing), or the rejection's message. */
  datatype AnalyzeOutcome = Analyzed(results: Option<seq<AnalysisResult>>) | AnalyzeFailed(message: string)

  /** `results && !loading`: any list, even an empty one, is shown once loading is over. */
  predicate ResultsVisible(results: Option<seq<AnalysisResult>>, loading: bool)
  {
    results.Some? && !loading
  }

  /** Both input forms receive `disabled={loading}`. */
  predicate InputsDisabled(loading: bool)
  {
    loading
  }

  class AnalyzePage {
    var results: Option<seq<AnalysisResult>>
    var loading: bool
    var error: string

    constructor()
      ensures results == None && !loading && error == ""
    {
      results := None;
      loading := false;
      error := "";
    }

    /** The synchronous start of `handleAnalyze`, up to the request it issues. */
    method BeginAnalyze(texts: seq<string>) returns (call: Api.ApiCall)
      modifies this
      ensures loading && error == "" && results == None
      ensures call == Api.AnalyzeTexts(texts, None)
    {
      loading := true;
      error := "";
      results := None;
      call := Api.AnalyzeTexts(texts, None);
    }

    /** The rest of `handleAnalyze`, once the request settles, including the `finally`. */
    method FinishAnalyze(outcome: AnalyzeOutcome)
      modifies this
      ensures !loading
      ensures outcome.Analyzed? ==> results == outcome.results && error == old(error)
      ensures outcome.AnalyzeFailed? ==> results == old(results) && error == OrElse(outcome.message, AnalyzeFailedMessage)
    {
      match outcome {
        case Analyzed(r) =>
          results := r;
        case AnalyzeFailed(message) =>
          error := OrElse(message, AnalyzeFailedMessage);
      }
      loading := false;
    }

    /** `handleAnalyze` from start to settlement. */
    method HandleAnalyze(texts: seq<string>, outcome: AnalyzeOutcome) returns (call: Api.ApiCall)
      modifies this
      ensures call == Api.AnalyzeTexts(texts, None)
      ensures !loading && !InputsDisabled(loading)
      ensures outcome.Analyzed? ==> results == outcome.results && error == ""
      ensures outcome.AnalyzeFailed? ==> results == None && error != "" && error == OrElse(outcome.message, AnalyzeFailedMessage)
      ensures outcome.AnalyzeFailed? ==> !ResultsVisible(results, loading)
    {
      call := BeginAnalyze(texts);
      FinishAnalyze(outcome);
    }

    /** `handleFileResults`: results replaced, error cleared, loading left alone. */
    method HandleFileResults(fileResults: Option<seq<AnalysisResult>>)
      modifies this
      ensures results == fileResults && error == "" && loading == old(loading)
    {
      results := fileResults;
      error := "";
    }
  }
}
