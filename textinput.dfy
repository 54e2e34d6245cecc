/**
 * The text form (src/components/analysis/TextInput.jsx): the `text` and
 * `error` state, the edit handler that guards the length, and the submit
 * handler that trims, sanitises and hands over a one-element list.
 */
module TextInputForm {
  import opened JsText
  import Constants
  import Security

  /** The too-long message with `MAX_TEXT_LENGTH.toLocaleString()` in an English locale. */
  const TooLongMessage: string := "Text too long. Maximum 100,000 characters allowed."
  const EmptyMessage: string := "Please enter some text to analyze."
  const InvalidMessage: string := "Invalid text input."

  /** The submit button's `disabled`: the prop is set, or there is nothing but whitespace. */
  predicate SubmitDisabled(disabled: bool, text: string)
  {
    disabled || Trim(text) == ""
  }

  lemma SubmitDisabledSpec(disabled: bool, text: string)
    ensures SubmitDisabled(disabled, text) <==> disabled || AllWhitespace(text)
  {
    TrimEmptyIff(text);
  }

  /** What a submit of `text` hands to `onAnalyze`, if anything. */
  function Submission(text: string): (r: Option<seq<string>>)
  {
    var trimmed := Trim(text);
    if trimmed == "" then None
    else
      var sanitized := Security.SanitizeString(trimmed);
      if sanitized == "" then None else Some([sanitized])
  }

  /**
   * A submission is one non-empty entity-encoded string, the sanitised trimmed
   * text, and there is one exactly when the text is not all whitespace and
   * does not sanitise to nothing.
   */
  lemma SubmissionSpec(text: string)
    ensures Submission(text).Some? <==> !AllWhitespace(text) && Security.SanitizeString(Trim(text)) != ""
    ensures Submission(text).Some? ==>
      && |Submission(text).value| == 1
      && Submission(text).value[0] == Security.SanitizeString(Trim(text))
      && Submission(text).value[0] != ""
      && Security.Encoded(Submission(text).value[0])
  {
    TrimEmptyIff(text);
  }

  /** Clearing the field is an edit the guard refuses: the empty string fails `validateTextLength`. */
  lemma ClearingIsRefused()
    ensures !Security.ValidateTextLength(Str(""), Constants.MaxTextLength)
  {
  }

  /** Text that is only a `javascript:` scheme has a non-blank trim but sanitises to nothing. */
  lemma UriOnlyTextIsInvalid(text: string)
    requires text == "javascript:"
    ensures Trim(text) == text
    ensures Submission(text).None? && Trim(text) != ""
  {
    assert !IsWhitespace(text[0]) && !IsWhitespace(text[|text| - 1]);
    assert TrimStart(text) == text;
    assert TrimEnd(text) == text;
    Security.UriAlone(text);
  }

  class TextInput {
    var text: string
    var error: string

    ghost predicate Valid()
      reads this
    {
      Utf16Length(text) <= Constants.MaxTextLength
    }

    constructor()
      ensures Valid()
      ensures text == "" && error == ""
    {
      text := "";
      error := "";
    }

    /** `handleChange`: an edit is taken only when `validateTextLength` accepts it. */
    method HandleChange(value: string)
      requires Valid()
      modifies this
      ensures Valid()
      ensures Security.ValidateTextLength(Str(value), Constants.MaxTextLength) ==> text == value && error == ""
      ensures !Security.ValidateTextLength(Str(value), Constants.MaxTextLength) ==> text == old(text) && error == TooLongMessage
    {
      if !Security.ValidateTextLength(Str(value), Constants.MaxTextLength) {
        error := TooLongMessage;
        return;
      }
      error := "";
      text := value;
    }

    /** `handleSubmit`; the result is the argument passed to `onAnalyze`, if it is called. */
    method HandleSubmit() returns (sent: Option<seq<string>>)
      requires Valid()
      modifies this
      ensures Valid()
      ensures sent == Submission(old(text))
      ensures Trim(old(text)) == "" ==> text == old(text) && error == EmptyMessage
      ensures Trim(old(text)) != "" && sent.None? ==> text == old(text) && error == InvalidMessage
      ensures sent.Some? ==> text == "" && error == ""
    {
      var trimmed := Trim(text);
      if trimmed == "" {
        error := EmptyMessage;
        return None;
      }
      var sanitized := Security.SanitizeString(trimmed);
      if sanitized == "" {
        error := InvalidMessage;
        return None;
      }
      sent := Some([sanitized]);
      text := "";
      error := "";
    }
  }
}
