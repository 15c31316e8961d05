/** The profile form for the caller's own API keys. */
module ProfilePage {
  import opened JsValues

  /** The value the form shows for a stored key: "" when none is set. */
  function FormDefault(stored: Option<string>): (shown: string)
    ensures shown == "" <==> !Truthy(stored)
    ensures Truthy(stored) ==> shown == stored.value
  {
    OrEmpty(stored)
  }

  /** `onSubmit`'s conversion of one key: "" becomes null, anything else,
      null included, is sent as it is. */
  function NormaliseKey(value: Option<string>): (sent: Option<string>)
    ensures value == Some("") ==> sent.None?
    ensures value != Some("") ==> sent == value
  {
    if value == Some("") then None else value
  }

  datatype ApiKeys = ApiKeys(newsApiKey: Option<string>, geminiApiKey: Option<string>)

  function Submit(form: ApiKeys): (sent: ApiKeys)
    ensures sent.newsApiKey == NormaliseKey(form.newsApiKey)
    ensures sent.geminiApiKey == NormaliseKey(form.geminiApiKey)
  {
    ApiKeys(NormaliseKey(form.newsApiKey), NormaliseKey(form.geminiApiKey))
  }

  /** Submitting the form as it was filled in never sends an empty key, and
      sends back exactly a stored key that is not the empty string. */
  lemma UntouchedFormRoundTrip(stored: ApiKeys)
    ensures var sent := Submit(ApiKeys(Some(FormDefault(stored.newsApiKey)), Some(FormDefault(stored.geminiApiKey))));
      && sent.newsApiKey == OrNull(stored.newsApiKey)
      && sent.geminiApiKey == OrNull(stored.geminiApiKey)
      && sent.newsApiKey != Some("") && sent.geminiApiKey != Some("")
      && (stored.newsApiKey != Some("") ==> sent.newsApiKey == stored.newsApiKey)
      && (stored.geminiApiKey != Some("") ==> sent.geminiApiKey == stored.geminiApiKey)
  {
  }
}
