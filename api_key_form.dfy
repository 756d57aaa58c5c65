/** The key form of src/components/ApiKeyForm.tsx: the check, the format
    warning and the normalisation of the keys it saves into the API-key
    context. */
module ApiKeyForm {
  import opened Wrappers
  import opened Types
  import opened Text
  import IndexPage

  const RequiredError := "Gemini API key is required"
  const FormatWarning := "Gemini API key format looks incorrect. Please check and try again."
  const SavedMessage := "API keys saved successfully!"

  /** A toast shown by the form. */
  datatype Notice = ErrorNotice(message: string) | WarningNotice(message: string) | SuccessNotice(message: string)

  /** The outcome of one submission. */
  datatype Submission = Rejected | Saved(keys: ApiKeys, warned: bool)

  /** A character of the class `[A-Za-z0-9_-]`. */
  predicate IsKeyChar(c: char)
  {
    ('A' <= c <= 'Z') || ('a' <= c <= 'z') || ('0' <= c <= '9') || c == '_' || c == '-'
  }

  /** `/^[A-Za-z0-9_-]{30,}$/` matches. Without the `m` flag `$` matches only at the end
      of the input, so the whole key must be made of these characters. */
  predicate LooksLikeKey(key: string)
  {
    |key| >= 30 && forall i :: 0 <= i < |key| ==> IsKeyChar(key[i])
  }

  /** The format heuristic, applied to the key as typed. */
  predicate FormatSuspicious(key: string)
  {
    !StartsWith(key, "AI") && !LooksLikeKey(key)
  }

  /** `pexelsApiKey.trim() || undefined`. */
  function OptionalKey(input: string): (r: Option<string>)
    ensures r.None? <==> AllWhitespace(input)
    ensures r.Some? ==> r.value == Trim(input) && r.value != []
  {
    TrimEmptyIffWhitespace(input);
    var t := Trim(input);
    if t == [] then None else Some(t)
  }

  /** `handleSubmit`, without its effects. */
  function SubmitApiKeys(gemini: string, pexels: string): (r: Submission)
    ensures r.Rejected? <==> AllWhitespace(gemini)
    ensures r.Saved? ==> r.keys.geminiApiKey == Trim(gemini) && r.keys.geminiApiKey != []
    ensures r.Saved? ==> r.keys.pexelsApiKey == OptionalKey(pexels)
    ensures r.Saved? ==> (r.warned <==> FormatSuspicious(gemini))
  {
    TrimEmptyIffWhitespace(gemini);
    if Trim(gemini) == [] then Rejected
    else Saved(ApiKeys(Trim(gemini), OptionalKey(pexels)), FormatSuspicious(gemini))
  }

  /** Saved keys enable generation, and the image search runs exactly when a non-blank
      Pexels key was given. */
  lemma SavedKeysEnableGeneration(gemini: string, pexels: string)
    requires SubmitApiKeys(gemini, pexels).Saved?
    ensures IndexPage.KeysSet(Some(SubmitApiKeys(gemini, pexels).keys))
    ensures IndexPage.HasPexels(SubmitApiKeys(gemini, pexels).keys) <==> !AllWhitespace(pexels)
  {
  }

  /** The heuristic looks at the untrimmed key: a key typed with a leading space draws
      the warning although the saved, trimmed key starts with "AI". */
  lemma WarningSeesUntrimmedKey()
    ensures SubmitApiKeys(" AI", "") == Saved(ApiKeys("AI", None), true)
  {
    var key := " AI";
    assert LeadingWhitespace(key) == 1 by {
      assert LeadingWhitespace(key[1..]) == 0 by { assert key[1..][0] == 'A'; }
    }
    assert TrailingWhitespace(key) == 0;
    assert Trim(key) == "AI";
    assert !StartsWith(key, "AI") by { assert key[..2][0] == ' '; }
  }

  /** A key that fails the heuristic is still saved: the warning never blocks. */
  lemma WarningDoesNotBlock(gemini: string, pexels: string)
    requires FormatSuspicious(gemini) && !AllWhitespace(gemini)
    ensures SubmitApiKeys(gemini, pexels).Saved? && SubmitApiKeys(gemini, pexels).warned
  {
  }

  class KeyForm {
    /** The `apiKeys` state of the surrounding `ApiProvider`. */
    var apiKeys: Option<ApiKeys>
    var isSubmitting: bool

    constructor (saved: Option<ApiKeys>)
      ensures apiKeys == saved && !isSubmitting
    {
      apiKeys := saved;
      isSubmitting := false;
    }

    /** `handleSubmit`: a blank Gemini key shows the error and changes nothing; otherwise
        the normalised keys replace the context's keys, with the warning first when the
        key looks wrong. The form is never left submitting. */
    method HandleSubmit(gemini: string, pexels: string) returns (notices: seq<Notice>)
      modifies this
      ensures SubmitApiKeys(gemini, pexels).Rejected? ==>
                notices == [ErrorNotice(RequiredError)] && apiKeys == old(apiKeys)
      ensures SubmitApiKeys(gemini, pexels).Saved? ==>
                apiKeys == Some(SubmitApiKeys(gemini, pexels).keys)
                && notices == (if SubmitApiKeys(gemini, pexels).warned then [WarningNotice(FormatWarning)] else [])
                              + [SuccessNotice(SavedMessage)]
      ensures SubmitApiKeys(gemini, pexels).Rejected? ==> isSubmitting == old(isSubmitting)
      ensures SubmitApiKeys(gemini, pexels).Saved? ==> !isSubmitting
    {
      var outcome := SubmitApiKeys(gemini, pexels);
      if outcome.Rejected? {
        return [ErrorNotice(RequiredError)];
      }
      isSubmitting := true;
      notices := if outcome.warned then [WarningNotice(FormatWarning)] else [];
      apiKeys := Some(outcome.keys);
      notices := notices + [SuccessNotice(SavedMessage)];
      isSubmitting := false;
    }
  }
}
