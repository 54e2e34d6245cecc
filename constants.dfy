/**
 * The client's fixed limits and endpoint paths (src/utils/constants.js).
 */
module Constants {
  import opened JsText

  const HealthEndpoint: string := "/api/v1/health"
  const MetaEndpoint: string := "/api/v1/meta"
  const AnalyzeEndpoint: string := "/api/v1/analyze"
  const AnalyzeFileEndpoint: string := "/api/v1/analyze/file"

  const ApiEndpoints: seq<string> := [HealthEndpoint, MetaEndpoint, AnalyzeEndpoint, AnalyzeFileEndpoint]

  /** `Object.values(FILE_TYPES)`, in declaration order. */
  const FileTypes: seq<string> := [".txt", ".csv", ".pdf", ".md", ".srt"]

  const MaxFileSize: int := 10 * 1024 * 1024
  const MaxTextLength: int := 100000
  const MaxBatchSize: int := 100
  const RateLimitRequests: int := 10
  const RateLimitWindowMs: int := 60000

  /** Every allowed extension is dot-prefixed and already lower-case, as the file-type check needs. */
  lemma FileTypesShape()
    ensures |FileTypes| == 5
    ensures forall i :: 0 <= i < |FileTypes| ==>
      |FileTypes[i]| >= 2 && FileTypes[i][0] == '.' && IsLowerAscii(FileTypes[i]) && Lower(FileTypes[i]) == FileTypes[i]
  {
    forall i | 0 <= i < |FileTypes|
      ensures Lower(FileTypes[i]) == FileTypes[i]
    {
      LowerOfLower(FileTypes[i]);
    }
  }

  /** The four endpoints are distinct and all live under `/api/v1`. */
  lemma EndpointsShape()
    ensures forall i, j :: 0 <= i < j < |ApiEndpoints| ==> ApiEndpoints[i] != ApiEndpoints[j]
    ensures forall i :: 0 <= i < |ApiEndpoints| ==> StartsWith(ApiEndpoints[i], "/api/v1/")
  {
    assert HealthEndpoint[8] != MetaEndpoint[8];
    assert |AnalyzeEndpoint| != |AnalyzeFileEndpoint|;
  }

  /** The named limits hold the literal values the validators default to and the interceptor hard-codes. */
  lemma LimitValues()
    ensures MaxFileSize == 10485760
    ensures MaxTextLength == 100000
    ensures RateLimitRequests == 10 && RateLimitWindowMs == 60000
  {
  }
}
