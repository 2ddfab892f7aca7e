/**
 * What a handler sees of one webhook request and of the intent classifier,
 * and where the call goes after a response.
 */
module Webhook {
  import opened Text
  import opened Twiml

  const VoiceRoute := "/voice"
  const InquiryRoute := "/handle_inquiry"
  const FeedbackRoute := "/handle_feedback"
  const DefaultSession := "default_session"

  /** The form fields of an incoming request (request.values). */
  datatype Request = Request(values: map<string, string>)

  /** Dictionary lookup with a default (dict.get). */
  function Get(m: map<string, string>, key: string, default: string): (r: string)
    ensures key in m ==> r == m[key]
    ensures key !in m ==> r == default
  {
    if key in m then m[key] else default
  }

  /** The caller's speech, stripped of surrounding whitespace. */
  function Speech(req: Request): string {
    Strip(Get(req.values, "SpeechResult", ""))
  }

  /** The call identifier that keys the classifier's session. */
  function SessionId(req: Request): string {
    Get(req.values, "CallSid", DefaultSession)
  }

  /** The part of the classifier's answer the handlers read. */
  datatype QueryResult = QueryResult(displayName: string, fulfillmentText: string)

  /** The intent classifier, from session identifier and text to its answer. */
  type Classifier = (string, string) -> QueryResult

  /** Where the conversation stands once the provider has played a response. */
  datatype State = AwaitingInquiry | AwaitingFeedback | Terminated

  /** The state reached by posting the caller's next speech to `route`. */
  function RouteState(route: string): State {
    if route == VoiceRoute || route == InquiryRoute then AwaitingInquiry
    else if route == FeedbackRoute then AwaitingFeedback
    else Terminated
  }

  /**
   * The state after the provider plays `verbs` and the caller speaks: the
   * first gather or redirect decides it, unless a hangup or the end of the
   * response comes first.
   */
  function NextState(verbs: seq<Verb>): State
    decreases |verbs|
  {
    if verbs == [] then Terminated
    else match verbs[0]
      case Say(_) => NextState(verbs[1..])
      case Gather(action, _, _) => RouteState(action)
      case Redirect(url) => RouteState(url)
      case Hangup => Terminated
  }

  /** The round-trip parameters of the gather at which the call waits. */
  function Params(verbs: seq<Verb>): map<string, string>
    decreases |verbs|
  {
    if verbs == [] then map[]
    else match verbs[0]
      case Say(_) => Params(verbs[1..])
      case Gather(_, params, _) => params
      case _ => map[]
  }

  /** The request the provider posts next: the echoed parameters plus the new speech. */
  function NextRequest(verbs: seq<Verb>, speech: string, callSid: string): (req: Request)
    ensures Get(req.values, "SpeechResult", "") == speech
    ensures SessionId(req) == callSid
    ensures forall k :: k in Params(verbs) && k != "SpeechResult" && k != "CallSid" ==>
      k in req.values && req.values[k] == Params(verbs)[k]
  {
    Request(Params(verbs)["SpeechResult" := speech]["CallSid" := callSid])
  }
}
