/**
  The OpenAI-compatible embeddings client of src/openAIEmbeddings.ts: the
  base-URL normalisation and API-key default of its constructor, and the
  classifier that turns a failed embedding call into an actionable error.
  The HTTP call itself is an oracle: its outcome is a parameter.
*/
module Embeddings {
  import opened Wrappers
  import opened Text

  /** A thrown value: its `message` property ("" when absent or empty) and what `String(error)` gives. */
  datatype ErrorValue = ErrorValue(message: string, display: string)

  /** `new Error(message)`. */
  function NewError(message: string): ErrorValue {
    ErrorValue(message, "Error: " + message)
  }

  /** An embedding vector (its floating-point values are not inspected). */
  type Vector = seq<real>

  /** The embedding backends a RAG manager can be configured with. */
  datatype EmbeddingClient =
    | OllamaClient(baseUrl: string, model: string)
    | OpenAiCompatibleClient(apiKey: string, model: string, baseUrl: string)

  const DefaultApiKey: string := "not-needed"

  /** `baseURL.endsWith('/v1') ? baseURL : `${baseURL}/v1`` */
  function NormalizeBaseUrl(baseUrl: string): (r: string)
    ensures EndsWith(r, "/v1")
    ensures StartsWith(r, baseUrl) && |r| <= |baseUrl| + 3
    ensures EndsWith(baseUrl, "/v1") <==> r == baseUrl
  {
    if EndsWith(baseUrl, "/v1") then baseUrl else baseUrl + "/v1"
  }

  /** Normalising twice is normalising once. */
  lemma NormalizeIdempotent(baseUrl: string)
    ensures NormalizeBaseUrl(NormalizeBaseUrl(baseUrl)) == NormalizeBaseUrl(baseUrl)
  {
  }

  /**
    The constructor: an absent API key becomes "not-needed" (a JavaScript
    default parameter, so an empty key is kept), and the base URL is normalised.
  */
  function NewOpenAiCompatibleClient(apiKey: Option<string>, model: string, baseUrl: string): (c: EmbeddingClient)
    ensures c.OpenAiCompatibleClient? && c.model == model
    ensures c.apiKey == if apiKey.Some? then apiKey.value else DefaultApiKey
    ensures EndsWith(c.baseUrl, "/v1") && StartsWith(c.baseUrl, baseUrl)
  {
    OpenAiCompatibleClient(if apiKey.Some? then apiKey.value else DefaultApiKey, model, NormalizeBaseUrl(baseUrl))
  }

  const CannotConnectMessage: string :=
    "Cannot connect to server. Please ensure your LLM server is running."
  const EndpointNotFoundMessage: string :=
    "Embeddings endpoint not found. Please ensure:\n"
    + "\U{2022} Your server supports /v1/embeddings\n"
    + "\U{2022} An embedding model is loaded (e.g., nomic-embed-text, mxbai-embed-large)"
  const RequestFailedMessage: string :=
    "Embeddings request failed. Please ensure:\n"
    + "\U{2022} An embedding model is loaded (not a chat model)\n"
    + "\U{2022} For Ollama: ollama pull nomic-embed-text\n"
    + "\U{2022} The model name in settings matches the loaded model"

  /** `error.message || String(error)`: the text the classifier inspects. */
  function InspectedText(e: ErrorValue): string {
    if e.message != "" then e.message else e.display
  }

  predicate MentionsUnreachable(msg: string) {
    Contains(msg, "ECONNREFUSED") || Contains(msg, "Failed to fetch")
  }

  predicate MentionsNotFound(msg: string) {
    Contains(msg, "404") || Contains(msg, "not found")
  }

  predicate MentionsBadRequest(msg: string) {
    Contains(msg, "400") || Contains(msg, "Bad Request") || Contains(msg, "model")
  }

  /**
    `createHelpfulError`: the first matching rule wins, in the order
    unreachable server, missing endpoint, rejected request; an error that
    matches none is returned unchanged.
  */
  function CreateHelpfulError(e: ErrorValue): (r: ErrorValue)
    ensures MentionsUnreachable(InspectedText(e)) ==> r == NewError(CannotConnectMessage)
    ensures (!MentionsUnreachable(InspectedText(e)) && MentionsNotFound(InspectedText(e)))
      ==> r == NewError(EndpointNotFoundMessage)
    ensures (!MentionsUnreachable(InspectedText(e)) && !MentionsNotFound(InspectedText(e))
      && MentionsBadRequest(InspectedText(e))) ==> r == NewError(RequestFailedMessage)
    ensures (!MentionsUnreachable(InspectedText(e)) && !MentionsNotFound(InspectedText(e))
      && !MentionsBadRequest(InspectedText(e))) ==> r == e
  {
    var msg := InspectedText(e);
    if MentionsUnreachable(msg) then NewError(CannotConnectMessage)
    else if MentionsNotFound(msg) then NewError(EndpointNotFoundMessage)
    else if MentionsBadRequest(msg) then NewError(RequestFailedMessage)
    else e
  }

  /**
    `embedDocuments` and `embedQuery` alike, given what the underlying client
    produced: the outcome is passed through on success, and a failure is
    rethrown as its helpful error.
  */
  function Embed<T>(outcome: Result<T, ErrorValue>): (r: Result<T, ErrorValue>)
    ensures outcome.Ok? ==> r == outcome
    ensures outcome.Err? ==> r.Err? && r.error == CreateHelpfulError(outcome.error)
  {
    match outcome
    case Ok(v) => Ok(v)
    case Err(e) => Err(CreateHelpfulError(e))
  }
}
