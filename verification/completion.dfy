/** The chat-completion call both chatbots make: a fixed deployment, a fixed
    system role, the built prompt as the user message, and a 1000-token cap.
    The service itself is an oracle; a raised exception is caught and turned
    into an answer string that starts with "Error with OpenAI API: ". */
module Completion {
  import opened Wrappers

  const Deployment := "GPT4o-API"
  const SystemRole := "You are a helpful assistant analyzing financial reports."
  const MaxTokens: nat := 1000
  const ErrorPrefix := "Error with OpenAI API: "

  datatype ChatRequest = ChatRequest(model: string, system: string, user: string, maxTokens: nat)

  /** The hosted model: the first choice's text, or the text of the
      exception the client raised. */
  type Completer = ChatRequest -> Result<string, string>

  /** The two-message request the source sends for `prompt`. */
  function Request(prompt: string): (q: ChatRequest)
    ensures q.user == prompt
    ensures q.model == Deployment && q.system == SystemRole && q.maxTokens == MaxTokens
  {
    ChatRequest(Deployment, SystemRole, prompt, MaxTokens)
  }

  /** What the caller receives: the content on success, the prefixed error
      text on failure; the call never raises. */
  function Answer(complete: Completer, prompt: string): (a: string)
    ensures complete(Request(prompt)).Success? ==> a == complete(Request(prompt)).value
    ensures complete(Request(prompt)).Failure? ==>
              a == ErrorPrefix + complete(Request(prompt)).error
  {
    match complete(Request(prompt))
    case Success(content) => content
    case Failure(msg) => ErrorPrefix + msg
  }

  /** A failed call is reported with the prefix followed by the service's
      own message, so the message can be read back from the answer. */
  lemma FailureMessageRecoverable(complete: Completer, prompt: string)
    requires complete(Request(prompt)).Failure?
    ensures |Answer(complete, prompt)| >= |ErrorPrefix|
    ensures Answer(complete, prompt)[..|ErrorPrefix|] == ErrorPrefix
    ensures Answer(complete, prompt)[|ErrorPrefix|..] == complete(Request(prompt)).error
  {
  }
}
