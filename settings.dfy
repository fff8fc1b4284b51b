/** The one setting the LLM-backed steps consult before calling the model: the Google API key. */
module Settings {

  import opened Text

  /** The placeholder that the configuration template ships in place of a real key. */
  const PlaceholderKey := "IHR_GOOGLE_API_KEY"

  /** A key counts as configured when it is non-empty and does not contain the placeholder. */
  predicate KeyConfigured(key: string)
  {
    key != [] && !Contains(key, PlaceholderKey)
  }
}
