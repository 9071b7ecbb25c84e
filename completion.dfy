/** The part of `query_mistral_api` (app.py) that decides what is sent to the
    chat-completion service and what the caller gets back. The HTTP exchange
    itself is the parameter `service`: it maps the request to the reply text
    or to the message of whatever exception the call, the status check or the
    response parsing raised. */
module Completion {
  import opened Wrappers

  const KeyMissing := "Error: Mistral API key not found. Please set it in the .env file."
  const FailurePrefix := "Error querying Mistral API: "
  // The fixed texts are written as concatenations of short phrases so that
  // the verifier can look at their characters; the strings are unchanged.
  const AnalysingPrefix :=
    "You are a medical assistant" + " that helps analyze prescription data." +
    " Answer questions based on the following prescription data:"
  const ContextPrefix := "\nPrescription data: "
  const Generic :=
    "You are a helpful medical assistant" + " that can answer general medical questions." +
    " Note that you are not a replacement for professional medical advice."

  /** The two messages of the request body: the system instructions and the
      user's prompt. */
  datatype Request = Request(system: string, user: string)

  /** What the service call did: a completion text, or an exception message. */
  datatype Reply = Completed(content: string) | Failed(reason: string)

  /** The system instructions: with truthy prescription data, the analysing
      assistant's text followed by the data verbatim; otherwise the fixed
      generic message, whatever the (absent or empty) data was. */
  function SystemMessage(data: Option<string>): (m: string)
    ensures Truthy(data) ==>
      |m| == |AnalysingPrefix + ContextPrefix| + |data.value| &&
      m[..|AnalysingPrefix + ContextPrefix|] == AnalysingPrefix + ContextPrefix &&
      m[|AnalysingPrefix + ContextPrefix|..] == data.value
    ensures !Truthy(data) ==> m == Generic
  {
    if Truthy(data) then AnalysingPrefix + ContextPrefix + data.value else Generic
  }

  /** Different prescription data give different system messages, so the
      service is told which data the question is about. */
  lemma SystemMessageInjective(d1: string, d2: string)
    requires d1 != "" && d2 != ""
    requires SystemMessage(Some(d1)) == SystemMessage(Some(d2))
    ensures d1 == d2
  {
    var n := |AnalysingPrefix + ContextPrefix|;
    assert d1 == SystemMessage(Some(d1))[n..];
  }

  /** A message with prescription data is never the generic one, so the
      service can always tell the two situations apart. */
  lemma SystemMessageDistinguishes(data: Option<string>)
    requires Truthy(data)
    ensures SystemMessage(data) != Generic
  {
    assert SystemMessage(data)[10] == 'm' != Generic[10];
  }

  /** The request sent for a prompt: the prompt as the user message; the
      analysing instructions followed by the data when the data is truthy,
      the generic instructions otherwise. */
  function BuildRequest(prompt: string, data: Option<string>): (q: Request)
    ensures q.user == prompt
    ensures Truthy(data) ==> q.system == AnalysingPrefix + ContextPrefix + data.value
    ensures !Truthy(data) ==> q.system == Generic
  {
    Request(SystemMessage(data), prompt)
  }

  /** `query_mistral_api`: never raises; a missing or empty key gives the
      fixed error without calling the service, a failed call gives the
      prefixed exception message, a completed call its content. */
  function Query(apiKey: Option<string>, prompt: string, data: Option<string>, service: Request -> Reply): (r: string)
    ensures !Truthy(apiKey) ==> r == KeyMissing
    ensures Truthy(apiKey) && service(BuildRequest(prompt, data)).Failed? ==>
      r == FailurePrefix + service(BuildRequest(prompt, data)).reason
    ensures Truthy(apiKey) && service(BuildRequest(prompt, data)).Completed? ==>
      r == service(BuildRequest(prompt, data)).content
  {
    if !Truthy(apiKey) then KeyMissing
    else
      match service(BuildRequest(prompt, data))
      case Completed(content) => content
      case Failed(reason) => FailurePrefix + reason
  }

  /** Without a key the service is not consulted: the answer is the same
      whatever the service would have replied. */
  lemma KeyMissingIgnoresService(apiKey: Option<string>, prompt: string, data: Option<string>,
                                 s1: Request -> Reply, s2: Request -> Reply)
    requires !Truthy(apiKey)
    ensures Query(apiKey, prompt, data, s1) == Query(apiKey, prompt, data, s2)
  {
  }

  /** With a key the answer depends on the service only through its reply to
      the one request built from the prompt and the data. */
  lemma QueryDependsOnlyOnRequest(apiKey: Option<string>, prompt: string, data: Option<string>,
                                  s1: Request -> Reply, s2: Request -> Reply)
    requires s1(BuildRequest(prompt, data)) == s2(BuildRequest(prompt, data))
    ensures Query(apiKey, prompt, data, s1) == Query(apiKey, prompt, data, s2)
  {
  }
}
