/**
 * The second revision of the dialogue controller: an inquiry turn that
 * answers from the template map, and a feedback turn that loops back,
 * ends the call, or re-states the last answer.
 */
module AppV2 {
  import opened Wrappers
  import opened Text
  import opened Twiml
  import opened Webhook

  /** The topics that get a follow-up question after their answer. */
  const FaqIntents: seq<string> := [
    "check_transfer_status",
    "money_arrival",
    "transfer_complete_but_money_pending",
    "transfer_delay_reasons",
    "proof_of_payment",
    "banking_partner_reference"
  ]

  /** The feedback intents that are treated as a new inquiry. */
  const LoopBackIntents: seq<string> := [
    "check_transfer_status",
    "money_arrival",
    "transfer_complete_but_money_pending",
    "transfer_delay_reasons",
    "proof_of_payment",
    "banking_partner_reference",
    "check_options"
  ]

  const Welcome := "Welcome to Wise Customer Support. How can I help you today? You can ask me for a list of options."
  const FollowUpQuestion := "Would you like to know more, or did that answer your query?"
  const UnclearDefault := "I'm sorry, I didn't understand that."
  const UnclearSuffix := ". Was that audible?"
  const HandOff := "I'm sorry, I may not be able to answer that, connecting you to a human agent."

  /** The unguarded template lookup fails with the missing key. */
  datatype Error = KeyError(key: string)

  type Templates = map<string, string>

  type Outcome = Result<seq<Verb>, Error>

  /** The greeting: listen for an inquiry, and start over when nothing is heard. */
  function Voice(): seq<Verb> {
    [Gather(InquiryRoute, map[], [Welcome]), Redirect(VoiceRoute)]
  }

  /** The intent's display name, lower-cased; an empty name stays empty. */
  function NormalizeIntent(displayName: string): string {
    if displayName != "" then Lower(displayName) else ""
  }

  /** The intent the classifier finds in the request's speech. */
  function Intent(classify: Classifier, req: Request): string {
    NormalizeIntent(classify(SessionId(req), Speech(req)).displayName)
  }

  /** The gather that waits for feedback and carries `reply` to the next turn. */
  function AwaitFeedback(reply: string): Verb {
    Gather(FeedbackRoute, map["LastResponse" := reply], [])
  }

  /** The answer to an inquiry whose intent is `intent`. */
  function InquiryReply(responses: Templates, intent: string): Outcome {
    if intent !in responses then Failure(KeyError(intent))
    else
      var reply := responses[intent];
      Success((if intent in FaqIntents then [Say(reply), Say(FollowUpQuestion)] else [Say(reply)])
              + [AwaitFeedback(reply)])
  }

  /** The inquiry turn (handle_inquiry). */
  function InquiryTurn(responses: Templates, classify: Classifier, req: Request): Outcome {
    InquiryReply(responses, Intent(classify, req))
  }

  /** The feedback turn (handle_feedback): the first matching row of the table wins. */
  function FeedbackTurn(responses: Templates, classify: Classifier, req: Request): Outcome {
    var intent := Intent(classify, req);
    if intent in LoopBackIntents then
      InquiryTurn(responses, classify, Request(req.values["SpeechResult" := Speech(req)]))
    else if intent == "satisfied" then
      Success([Say(Get(responses, "satisfied", "")), Hangup])
    else if intent == "followup" then
      Success([Say(Get(responses, "followup", "")), Hangup])
    else if intent == "unclear" then
      var last := Get(req.values, "LastResponse", UnclearDefault);
      Success([Say(last + UnclearSuffix), AwaitFeedback(last)])
    else
      Success([Say(HandOff), Hangup])
  }

  /** handle_inquiry, building the response verb by verb. */
  method HandleInquiry(responses: Templates, classify: Classifier, req: Request) returns (out: Outcome)
    ensures out == InquiryTurn(responses, classify, req)
  {
    var resp := new VoiceResponse();
    var inquiry := Speech(req);
    var sessionId := SessionId(req);
    var queryResult := classify(sessionId, inquiry);
    var intent := NormalizeIntent(queryResult.displayName);
    if intent !in responses {
      return Failure(KeyError(intent));
    }
    var reply := responses[intent];
    if intent in FaqIntents {
      resp.Say(reply);
      resp.Say(FollowUpQuestion);
      assert resp.verbs == [Say(reply), Say(FollowUpQuestion)];
    } else {
      resp.Say(reply);
      assert resp.verbs == [Say(reply)];
    }
    resp.Append(AwaitFeedback(reply));
    return Success(resp.verbs);
  }

  /** handle_feedback, building the response verb by verb. */
  method HandleFeedback(responses: Templates, classify: Classifier, req: Request) returns (out: Outcome)
    ensures out == FeedbackTurn(responses, classify, req)
  {
    var resp := new VoiceResponse();
    var feedback := Speech(req);
    var sessionId := SessionId(req);
    var queryResult := classify(sessionId, feedback);
    var intent := NormalizeIntent(queryResult.displayName);
    if intent in LoopBackIntents {
      out := HandleInquiry(responses, classify, Request(req.values["SpeechResult" := feedback]));
      return;
    }
    if intent == "satisfied" {
      resp.Say(Get(responses, "satisfied", ""));
      resp.Hangup();
      assert resp.verbs == [Say(Get(responses, "satisfied", "")), Hangup];
    } else if intent == "followup" {
      resp.Say(Get(responses, "followup", ""));
      resp.Hangup();
      assert resp.verbs == [Say(Get(responses, "followup", "")), Hangup];
    } else if intent == "unclear" {
      var lastResponse := Get(req.values, "LastResponse", UnclearDefault);
      resp.Say(lastResponse + UnclearSuffix);
      resp.Append(AwaitFeedback(lastResponse));
      assert resp.verbs == [Say(lastResponse + UnclearSuffix), AwaitFeedback(lastResponse)];
    } else {
      resp.Say(HandOff);
      resp.Hangup();
      assert resp.verbs == [Say(HandOff), Hangup];
    }
    return Success(resp.verbs);
  }

  // ---------------------------------------------------------------------------
  // Properties
  // ---------------------------------------------------------------------------

  /** Normalisation yields "" exactly for an empty name, and otherwise its lower-case form. */
  lemma NormalizeIntentSpec(displayName: string)
    ensures NormalizeIntent(displayName) == "" <==> displayName == ""
    ensures NormalizeIntent(displayName) == Lower(displayName)
    ensures forall i :: 0 <= i < |displayName| ==>
      NormalizeIntent(displayName)[i] == LowerChar(displayName[i])
    ensures NormalizeIntent(NormalizeIntent(displayName)) == NormalizeIntent(displayName)
  {
    forall i | 0 <= i < |displayName|
      ensures NormalizeIntent(displayName)[i] == LowerChar(displayName[i])
    {
      LowerAt(displayName, i);
    }
    LowerIdempotent(displayName);
  }

  /** The feedback loop-back list is the FAQ list plus check_options, which gets no follow-up. */
  lemma LoopBackIntentsSpec()
    ensures LoopBackIntents == FaqIntents + ["check_options"]
    ensures "check_options" !in FaqIntents
  {
  }

  /** An inquiry fails exactly when its intent has no template, and then names that intent. */
  lemma InquiryFailsIffNoTemplate(responses: Templates, classify: Classifier, req: Request)
    ensures InquiryTurn(responses, classify, req).Failure? <==> Intent(classify, req) !in responses
    ensures InquiryTurn(responses, classify, req).Failure? ==>
      InquiryTurn(responses, classify, req).error == KeyError(Intent(classify, req))
  {
  }

  /**
   * A successful inquiry says the template's reply and, for the six FAQ
   * intents only, the follow-up question after it.
   */
  lemma InquirySpeech(responses: Templates, classify: Classifier, req: Request)
    requires Intent(classify, req) in responses
    ensures var intent := Intent(classify, req);
      var out := InquiryTurn(responses, classify, req);
      out.Success? &&
      Spoken(out.value) == [responses[intent]] + (if intent in FaqIntents then [FollowUpQuestion] else [])
  {
    var intent := Intent(classify, req);
    var reply := responses[intent];
    if intent in FaqIntents {
      var vs := [Say(reply), Say(FollowUpQuestion), AwaitFeedback(reply)];
      assert vs == [Say(reply)] + [Say(FollowUpQuestion), AwaitFeedback(reply)];
      SpokenConcat([Say(reply)], [Say(FollowUpQuestion), AwaitFeedback(reply)]);
      SpokenSingle(Say(reply));
      SpokenPair(Say(FollowUpQuestion), AwaitFeedback(reply));
    } else {
      SpokenPair(Say(reply), AwaitFeedback(reply));
    }
  }

  /**
   * A successful inquiry never hangs up; it ends in its only gather, which
   * waits for feedback and carries the reply as LastResponse.
   */
  lemma InquiryAwaitsFeedback(responses: Templates, classify: Classifier, req: Request)
    requires Intent(classify, req) in responses
    ensures var reply := responses[Intent(classify, req)];
      var out := InquiryTurn(responses, classify, req);
      && out.Success? && |out.value| > 0
      && Hangup !in out.value
      && GatherCount(out.value) == 1
      && out.value[|out.value| - 1] == Gather(FeedbackRoute, map["LastResponse" := reply], [])
      && NextState(out.value) == AwaitingFeedback
      && Params(out.value) == map["LastResponse" := reply]
  {
    var intent := Intent(classify, req);
    var reply := responses[intent];
    var g := AwaitFeedback(reply);
    if intent in FaqIntents {
      var vs := [Say(reply), Say(FollowUpQuestion), g];
      assert vs == [Say(reply)] + [Say(FollowUpQuestion), g];
      SpokenConcat([Say(reply)], [Say(FollowUpQuestion), g]);
      SpokenSingle(Say(reply));
      SpokenPair(Say(FollowUpQuestion), g);
      assert vs[1..] == [Say(FollowUpQuestion), g] && vs[1..][1..] == [g];
      assert NextState(vs[1..]) == NextState([g]) && Params(vs[1..]) == Params([g]);
    } else {
      var vs := [Say(reply), g];
      SpokenPair(Say(reply), g);
      assert vs[1..] == [g];
    }
  }

  /** A feedback intent from the loop-back list gives exactly the inquiry turn on the same request. */
  lemma FeedbackLoopsBack(responses: Templates, classify: Classifier, req: Request)
    requires Intent(classify, req) in LoopBackIntents
    ensures FeedbackTurn(responses, classify, req) == InquiryTurn(responses, classify, req)
  {
    var req' := Request(req.values["SpeechResult" := Speech(req)]);
    StripIdempotent(Get(req.values, "SpeechResult", ""));
    assert Speech(req') == Speech(req);
    assert SessionId(req') == SessionId(req);
  }

  /** satisfied and followup say their template and hang up without listening again. */
  lemma FeedbackEndsCall(responses: Templates, classify: Classifier, req: Request)
    requires Intent(classify, req) == "satisfied" || Intent(classify, req) == "followup"
    ensures var out := FeedbackTurn(responses, classify, req);
      && out.Success?
      && Spoken(out.value) == [Get(responses, Intent(classify, req), "")]
      && GatherCount(out.value) == 0
      && Hangup in out.value
      && NextState(out.value) == Terminated
  {
    var vs := [Say(Get(responses, Intent(classify, req), "")), Hangup];
    SpokenPair(vs[0], vs[1]);
    assert vs[1..] == [Hangup];
    assert FeedbackTurn(responses, classify, req).value == vs;
  }

  /**
   * unclear re-states the last answer with the clarification suffix and
   * listens for feedback again, carrying the last answer forward unchanged.
   */
  lemma FeedbackUnclearRepeats(responses: Templates, classify: Classifier, req: Request)
    requires Intent(classify, req) == "unclear"
    ensures var last := Get(req.values, "LastResponse", UnclearDefault);
      var out := FeedbackTurn(responses, classify, req);
      && out.Success?
      && Spoken(out.value) == [last + ". Was that audible?"]
      && Hangup !in out.value
      && GatherCount(out.value) == 1
      && NextState(out.value) == AwaitingFeedback
      && Params(out.value) == map["LastResponse" := last]
    ensures "LastResponse" !in req.values ==>
      Spoken(FeedbackTurn(responses, classify, req).value) == [UnclearDefault + ". Was that audible?"]
  {
    var last := Get(req.values, "LastResponse", UnclearDefault);
    var vs := [Say(last + UnclearSuffix), AwaitFeedback(last)];
    SpokenPair(vs[0], vs[1]);
    assert vs[1..] == [AwaitFeedback(last)];
    assert FeedbackTurn(responses, classify, req).value == vs;
  }

  /** Any other intent, the empty one included, apologises and hands off by hanging up. */
  lemma FeedbackHandsOff(responses: Templates, classify: Classifier, req: Request)
    requires Intent(classify, req) !in LoopBackIntents
    requires Intent(classify, req) !in ["satisfied", "followup", "unclear"]
    ensures var out := FeedbackTurn(responses, classify, req);
      && out.Success?
      && Spoken(out.value) == [HandOff]
      && GatherCount(out.value) == 0
      && Hangup in out.value
      && NextState(out.value) == Terminated
  {
    var vs := [Say(HandOff), Hangup];
    SpokenPair(vs[0], vs[1]);
    assert vs[1..] == [Hangup];
    assert FeedbackTurn(responses, classify, req).value == vs;
  }

  /** A feedback turn fails only by looping back to an inquiry whose intent has no template. */
  lemma FeedbackFailsOnlyOnLoopBack(responses: Templates, classify: Classifier, req: Request)
    ensures FeedbackTurn(responses, classify, req).Failure? <==>
      Intent(classify, req) in LoopBackIntents && Intent(classify, req) !in responses
  {
    if Intent(classify, req) in LoopBackIntents {
      FeedbackLoopsBack(responses, classify, req);
    }
  }

  /**
   * A run of feedback turns: each time the response waits for feedback, the
   * provider posts the next transcript along with the echoed parameters.
   */
  function FeedbackRun(responses: Templates, classify: Classifier, req: Request, speeches: seq<string>): Outcome
    decreases |speeches|
  {
    var out := FeedbackTurn(responses, classify, req);
    if speeches == [] || out.Failure? || NextState(out.value) != AwaitingFeedback then out
    else FeedbackRun(responses, classify, NextRequest(out.value, speeches[0], SessionId(req)), speeches[1..])
  }

  /**
   * However many unclear turns follow one another, the call keeps re-stating
   * the same last answer and carrying it unchanged.
   */
  lemma {:induction false} UnclearRunKeepsCarry(responses: Templates, classify: Classifier, req: Request, speeches: seq<string>)
    requires Intent(classify, req) == "unclear"
    requires forall t :: t in speeches ==>
      NormalizeIntent(classify(SessionId(req), Strip(t)).displayName) == "unclear"
    ensures var last := Get(req.values, "LastResponse", UnclearDefault);
      FeedbackRun(responses, classify, req, speeches) ==
        Success([Say(last + UnclearSuffix), Gather(FeedbackRoute, map["LastResponse" := last], [])])
    decreases |speeches|
  {
    var last := Get(req.values, "LastResponse", UnclearDefault);
    var out := FeedbackTurn(responses, classify, req);
    FeedbackUnclearRepeats(responses, classify, req);
    assert out == Success([Say(last + UnclearSuffix), AwaitFeedback(last)]);
    if speeches != [] {
      var next := NextRequest(out.value, speeches[0], SessionId(req));
      assert Params(out.value) == map["LastResponse" := last];
      assert Get(next.values, "LastResponse", UnclearDefault) == last;
      assert SessionId(next) == SessionId(req);
      assert speeches[0] in speeches;
      assert Speech(next) == Strip(speeches[0]);
      assert forall t :: t in speeches[1..] ==> t in speeches;
      UnclearRunKeepsCarry(responses, classify, next, speeches[1..]);
    }
  }

  /** The greeting waits for an inquiry, and starts over when nothing is heard. */
  lemma WelcomeAwaitsInquiry()
    ensures Spoken(Voice()) == [Welcome]
    ensures NextState(Voice()) == AwaitingInquiry
    ensures Voice()[|Voice()| - 1] == Redirect(VoiceRoute) && RouteState(VoiceRoute) == AwaitingInquiry
    ensures Hangup !in Voice()
  {
    SpokenPair(Voice()[0], Voice()[1]);
    assert Voice()[1..] == [Redirect(VoiceRoute)];
  }
}
