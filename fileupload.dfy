/**
 * The file form (src/components/analysis/FileUpload.jsx): the `file`,
 * `error` and `loading` state, the three-step validation of a chosen file,
 * and the upload with its success and failure paths. The upload's outcome is
 * an input; `formatFileSize` (not part of this model) is represented by the
 * text it produces for the size limit.
 */
module FileUploadForm {
  import opened JsText
  import opened Analysis
  import Constants
  import Security
  import Api

  const InvalidNameMessage: string := "Invalid file name. Please rename the file."
  const UploadFailedMessage: string := "Failed to analyze file. Please try again."

  function UnsupportedTypeMessage(): string
  {
    "Unsupported file type. Supported: " + Join(", ", Constants.FileTypes)
  }

  function TooLargeMessage(formattedMax: string): string
  {
    "File too large. Maximum size: " + formattedMax
  }

  /** The first check a chosen file fails, in the order type, size, name. */
  datatype Verdict = BadType | TooLarge | BadName | Acceptable

  function Check(f: Api.FileRef): Verdict
  {
    if !Security.ValidateFileType(Some(f.name), Constants.FileTypes) then BadType
    else if !Security.ValidateFileSize(f.size, Constants.MaxFileSize) then TooLarge
    else if Security.SanitizeString(f.name) != f.name then BadName
    else Acceptable
  }

  /**
   * A file is acceptable exactly when its extension is listed, its size is at
   * most 10 MiB, and its name is clean: no `& < > " ' /` and no match of a
   * strip pattern anywhere.
   */
  lemma CheckSpec(f: Api.FileRef)
    ensures Check(f) == Acceptable <==>
      && Security.ValidateFileType(Some(f.name), Constants.FileTypes)
      && f.size <= 10485760
      && Security.Clean(f.name)
    ensures Check(f) == BadName ==> !Security.Clean(f.name)
  {
    Security.SanitizeFixpointIff(f.name);
  }

  /** A name with a slash in it is refused even when type and size pass. */
  lemma SlashInNameRefused(f: Api.FileRef)
    requires Check(f) != BadType && Check(f) != TooLarge
    requires exists i :: 0 <= i < |f.name| && f.name[i] == '/'
    ensures Check(f) == BadName
  {
    Security.SanitizeFixpointIff(f.name);
  }

  /** The upload button's `disabled`. */
  predicate UploadDisabled(disabled: bool, file: Option<Api.FileRef>, loading: bool)
  {
    disabled || file.None? || loading
  }

  /** What `analyzeFile` came back with: `result.results` (`None` when missing), or the rejection's message. */
  datatype UploadOutcome = Uploaded(results: Option<seq<AnalysisResult>>) | UploadFailed(message: string)

  class FileUpload {
    var file: Option<Api.FileRef>
    var error: string
    var loading: bool
    /** `formatFileSize(MAX_FILE_SIZE)`. */
    const formattedMax: string

    constructor(formattedMax: string)
      ensures file == None && error == "" && !loading && this.formattedMax == formattedMax
    {
      this.formattedMax := formattedMax;
      file := None;
      error := "";
      loading := false;
    }

    /**
     * `handleFileChange`: the error is cleared first; a chosen file is stored
     * only when every check passes, and a refused one leaves any earlier file
     * in place.
     */
    method HandleFileChange(selected: Option<Api.FileRef>)
      modifies this
      ensures loading == old(loading)
      ensures selected.None? ==> file == old(file) && error == ""
      ensures selected.Some? ==> match Check(selected.value)
        case BadType => file == old(file) && error == UnsupportedTypeMessage()
        case TooLarge => file == old(file) && error == TooLargeMessage(formattedMax)
        case BadName => file == old(file) && error == InvalidNameMessage
        case Acceptable => file == selected && error == ""
    {
      error := "";
      if selected.None? {
        return;
      }
      var f := selected.value;
      if !Security.ValidateFileType(Some(f.name), Constants.FileTypes) {
        error := UnsupportedTypeMessage();
        return;
      }
      if !Security.ValidateFileSize(f.size, Constants.MaxFileSize) {
        error := TooLargeMessage(formattedMax);
        return;
      }
      if Security.SanitizeString(f.name) != f.name {
        error := InvalidNameMessage;
        return;
      }
      file := Some(f);
    }

    /**
     * `handleUpload`. `call` is the request issued, `delivered` what reaches
     * `onAnalyze`; both are `None` when the call or the hand-over does not
     * happen. Loading is off again afterwards either way.
     */
    method HandleUpload(outcome: UploadOutcome) returns (call: Option<Api.ApiCall>, delivered: Option<Option<seq<AnalysisResult>>>)
      modifies this
      ensures old(file).None? ==> call.None? && delivered.None? && file == old(file) && error == old(error) && loading == old(loading)
      ensures old(file).Some? ==> call == Some(Api.AnalyzeFile(old(file).value, None)) && !loading
      ensures old(file).Some? && outcome.Uploaded? ==> delivered == Some(outcome.results) && file.None? && error == old(error)
      ensures old(file).Some? && outcome.UploadFailed? ==>
        delivered.None? && file == old(file) && error == OrElse(outcome.message, UploadFailedMessage)
    {
      if file.None? {
        return None, None;
      }
      loading := true;
      call := Some(Api.AnalyzeFile(file.value, None));
      match outcome {
        case Uploaded(results) =>
          delivered := Some(results);
          file := None;
        case UploadFailed(message) =>
          delivered := None;
          error := OrElse(message, UploadFailedMessage);
      }
      loading := false;
    }
  }
}
